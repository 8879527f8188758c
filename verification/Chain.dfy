/** Fork choice and the canonical chain: the block, difficulty and canonical
    tables of internal/blockchain.go with the decision of internal/forkchoice.go. */
module CanonicalChain {
  import opened Common

  type Hash = nat

  const ZERO_HASH: Hash := 0

  datatype Block = Block(hash: Hash, parent: Hash, number: nat, difficulty: nat)

  /** The stored tables and the head block. A block is found by hash and number. */
  datatype Chain = Chain(blocks: map<Hash, Block>, td: map<Hash, nat>, canonical: map<nat, Hash>, head: Block)

  datatype Error = UnknownAncestor | InvalidOldChain | InvalidNewChain

  datatype Status = Canon | Side

  /** What hashing gives: a stored block carries its own key, never the zero hash. */
  predicate IsKeyed(blocks: map<Hash, Block>)
  {
    forall h :: h in blocks ==> blocks[h].hash == h && IsStorable(blocks[h])
  }

  predicate IsStorable(b: Block)
  {
    b.hash != ZERO_HASH && b.number < TT64 - 1
  }

  predicate IsStored(blocks: map<Hash, Block>, b: Block)
  {
    b.hash in blocks && blocks[b.hash] == b
  }

  /** The 64-bit predecessor of a block number. */
  function Previous(number: nat): nat
  {
    if number == 0 then TT64 - 1 else number - 1
  }

  function GetBlock(blocks: map<Hash, Block>, hash: Hash, number: nat): Option<Block>
  {
    if hash in blocks && blocks[hash].number == number then Some(blocks[hash]) else None
  }

  function ParentOf(blocks: map<Hash, Block>, b: Block): Option<Block>
  {
    GetBlock(blocks, b.parent, Previous(b.number))
  }

  /** A block and its stored ancestors, youngest first. */
  function Ancestry(blocks: map<Hash, Block>, b: Block): (r: seq<Block>)
    requires IsKeyed(blocks)
    ensures 0 < |r| <= b.number + 1 && r[0] == b
    decreases b.number
  {
    var p := ParentOf(blocks, b);
    if p.None? then [b] else [b] + Ancestry(blocks, p.value)
  }

  lemma {:induction false} AncestryAt(blocks: map<Hash, Block>, b: Block, i: nat)
    requires IsKeyed(blocks) && i < |Ancestry(blocks, b)|
    ensures var a := Ancestry(blocks, b);
            && a[i].number == b.number - i && a[i..] == Ancestry(blocks, a[i])
            && (IsStored(blocks, b) ==> IsStored(blocks, a[i]))
    decreases b.number
  {
    if i == 0 {
    } else {
      AncestryAt(blocks, ParentOf(blocks, b).value, i - 1);
    }
  }

  /** The ancestry goes down to block number 0. */
  predicate IsComplete(blocks: map<Hash, Block>, b: Block)
    requires IsKeyed(blocks)
  {
    |Ancestry(blocks, b)| == b.number + 1
  }

  /** The canonical index that belongs to a head: its ancestors by number. */
  function Index(blocks: map<Hash, Block>, head: Block): map<nat, Hash>
    requires IsKeyed(blocks) && IsComplete(blocks, head)
  {
    map n: nat | 0 <= n <= head.number :: HashAt(blocks, head, n)
  }

  function HashAt(blocks: map<Hash, Block>, head: Block, n: nat): Hash
    requires IsKeyed(blocks) && IsComplete(blocks, head) && n <= head.number
  {
    HashIn(Ancestry(blocks, head), head.number, n)
  }

  /** The hash at number `n` in a chain down from number `top`. */
  function HashIn(chain: seq<Block>, top: nat, n: nat): Hash
    requires n <= top < |chain|
  {
    chain[top - n].hash
  }

  /** The difficulties of a block and its ancestors, block number 0 not counted. */
  function TotalDifficulty(blocks: map<Hash, Block>, b: Block): nat
    requires IsKeyed(blocks)
    decreases b.number
  {
    var p := ParentOf(blocks, b);
    if b.number == 0 || p.None? then 0 else TotalDifficulty(blocks, p.value) + b.difficulty
  }

  // ----- the invariant -----

  /** Every block with a recorded difficulty descends from genesis. */
  predicate AreRecorded(genesis: Block, blocks: map<Hash, Block>, td: map<Hash, nat>)
    requires IsKeyed(blocks)
  {
    && IsStored(blocks, genesis) && genesis.number == 0
    && genesis.hash in td && td[genesis.hash] == 0
    && forall h :: h in td && h != genesis.hash ==> IsRecorded(blocks, td, h)
  }

  predicate IsRecorded(blocks: map<Hash, Block>, td: map<Hash, nat>, h: Hash)
    requires h in td
  {
    && h in blocks && blocks[h].number > 0
    && var p := ParentOf(blocks, blocks[h]);
       p.Some? && p.value.hash in td && td[h] == (td[p.value.hash] + blocks[h].difficulty) % TT256
  }

  /** What every run of block writes keeps: the index is the chain of the head. */
  predicate IsSound(genesis: Block, c: Chain)
  {
    && IsKeyed(c.blocks) && AreRecorded(genesis, c.blocks, c.td)
    && c.head.hash in c.td && IsIndexed(c.blocks, c.canonical, c.head)
  }

  predicate IsIndexed(blocks: map<Hash, Block>, canonical: map<nat, Hash>, head: Block)
    requires IsKeyed(blocks)
  {
    IsStored(blocks, head) && IsComplete(blocks, head) && canonical == Index(blocks, head)
  }

  /** The head is a heaviest block of all recorded. */
  predicate IsHeaviest(c: Chain)
  {
    c.head.hash in c.td && forall h :: h in c.td ==> c.td[h] <= c.td[c.head.hash]
  }

  lemma GenesisIsSound(genesis: Block)
    requires genesis.number == 0 && genesis.hash != ZERO_HASH
    ensures var h := genesis.hash;
            var c := Chain(map[h := genesis], map[h := 0], map[0 := h], genesis);
            IsSound(genesis, c) && IsHeaviest(c)
  {
  }

  /** A recorded block's ancestors are recorded, down to genesis. */
  lemma {:induction false} RecordedDescends(genesis: Block, blocks: map<Hash, Block>, td: map<Hash, nat>, h: Hash)
    requires IsKeyed(blocks) && AreRecorded(genesis, blocks, td) && h in td
    ensures h in blocks && IsComplete(blocks, blocks[h])
    ensures var a := Ancestry(blocks, blocks[h]);
            a[|a| - 1] == genesis && forall i :: 0 <= i < |a| ==> a[i].hash in td
    decreases if h in blocks then blocks[h].number else 0
  {
    if h == genesis.hash {
    } else {
      assert IsRecorded(blocks, td, h);
      RecordedDescends(genesis, blocks, td, blocks[h].parent);
    }
  }

  /** A recorded difficulty is the sum along the ancestry, kept in 256 bits. */
  lemma {:induction false} TdIsSum(genesis: Block, blocks: map<Hash, Block>, td: map<Hash, nat>, h: Hash)
    requires IsKeyed(blocks) && AreRecorded(genesis, blocks, td) && h in td
    ensures h in blocks
    ensures var sum := TotalDifficulty(blocks, blocks[h]); td[h] == sum % TT256 && (td[h] == sum <==> sum < TT256)
    decreases if h in blocks then blocks[h].number else 0
  {
    if h == genesis.hash {
    } else {
      assert IsRecorded(blocks, td, h);
      var p := blocks[h].parent;
      TdIsSum(genesis, blocks, td, p);
      SumWraps(td[p], TotalDifficulty(blocks, blocks[p]), blocks[h].difficulty);
    }
  }

  lemma SumWraps(td: nat, sum: nat, d: nat)
    requires td == sum % TT256
    ensures (td + d) % TT256 == (sum + d) % TT256
    ensures (sum + d) % TT256 == sum + d <==> sum + d < TT256
  {
  }

  /** What the index says, number by number: a parent-linked chain from genesis
      to the head, and no marker above it. */
  lemma IndexIsLinked(genesis: Block, c: Chain)
    requires IsSound(genesis, c)
    ensures forall n: nat :: n in c.canonical <==> n <= c.head.number
    ensures c.canonical[0] == genesis.hash && c.canonical[c.head.number] == c.head.hash
    ensures forall n: nat :: n in c.canonical ==>
              && c.canonical[n] in c.blocks && c.blocks[c.canonical[n]].number == n
              && (n > 0 ==> c.blocks[c.canonical[n]].parent == c.canonical[n - 1])
  {
    var a := Ancestry(c.blocks, c.head);
    RecordedDescends(genesis, c.blocks, c.td, c.head.hash);
    forall n: nat | n in c.canonical
      ensures c.canonical[n] in c.blocks && c.blocks[c.canonical[n]].number == n
      ensures n > 0 ==> c.blocks[c.canonical[n]].parent == c.canonical[n - 1]
    {
      var i := c.head.number - n;
      AncestryAt(c.blocks, c.head, i);
      assert a[i..] == Ancestry(c.blocks, a[i]);
      assert n > 0 ==> a[i + 1] == a[i..][1];
    }
  }

  // ----- steps -----

  /** ReorgNeeded: more difficulty wins; on a tie the shorter chain, and between
      equally long ones the preserved one or a coin. */
  function ReorgNeeded(localTd: nat, externTd: nat, headNumber: nat, number: nat,
                       currentPreserve: bool, externPreserve: bool, coin: bool): (reorg: bool)
    ensures reorg ==> externTd >= localTd
    ensures externTd > localTd ==> reorg
  {
    externTd > localTd ||
    (externTd == localTd &&
     (number < headNumber || (number == headNumber && !currentPreserve && (externPreserve || coin))))
  }

  /** Of two chains that differ in difficulty or length exactly one replaces the
      other: the heavier, or the shorter of two equally heavy ones. Between equals
      the preserved one stays, or comes, and otherwise the coin decides. */
  lemma ChoiceIsConsistent(td1: nat, n1: nat, p1: bool, td2: nat, n2: nat, p2: bool, coin: bool, coin': bool)
    ensures td1 != td2 || n1 != n2 ==>
              (ReorgNeeded(td1, td2, n1, n2, p1, p2, coin) <==> !ReorgNeeded(td2, td1, n2, n1, p2, p1, coin'))
    ensures td1 == td2 && n2 < n1 ==> ReorgNeeded(td1, td2, n1, n2, p1, p2, coin)
    ensures td1 == td2 && n1 == n2 ==>
              (ReorgNeeded(td1, td2, n1, n2, p1, p2, coin) <==> !p1 && (p2 || coin))
  {
  }

  function GetTd(blocks: map<Hash, Block>, td: map<Hash, nat>, hash: Hash, number: nat): Option<nat>
  {
    if hash in td && GetBlock(blocks, hash, number).Some? then Some(td[hash]) else None
  }

  /** The tables once a block and its difficulty are written. */
  function Recorded(c: Chain, b: Block, ptd: nat): Chain
  {
    c.(blocks := c.blocks[b.hash := b], td := c.td[b.hash := (ptd + b.difficulty) % TT256])
  }

  predicate Prevails(d: Chain, b: Block, preserve: Block -> bool, coin: bool)
    requires d.head.hash in d.td && b.hash in d.td
  {
    ReorgNeeded(d.td[d.head.hash], d.td[b.hash], d.head.number, b.number, preserve(d.head), preserve(b), coin)
  }

  predicate Grows(blocks: map<Hash, Block>, blocks': map<Hash, Block>)
  {
    forall h :: h in blocks ==> h in blocks' && blocks'[h] == blocks[h]
  }

  lemma {:induction false} AncestryStays(blocks: map<Hash, Block>, blocks': map<Hash, Block>, b: Block)
    requires IsKeyed(blocks) && IsKeyed(blocks') && Grows(blocks, blocks') && IsComplete(blocks, b)
    ensures Ancestry(blocks', b) == Ancestry(blocks, b)
    decreases b.number
  {
    var p := ParentOf(blocks, b);
    if p.None? {
    } else {
      AncestryStays(blocks, blocks', p.value);
    }
  }

  /** A block of its own hash only: what collision-free hashing gives. */
  predicate Agrees(blocks: map<Hash, Block>, b: Block)
  {
    b.hash in blocks ==> blocks[b.hash] == b
  }

  /** Storing a block without difficulty keeps everything. */
  lemma StoreKeeps(genesis: Block, c: Chain, b: Block)
    requires IsSound(genesis, c) && IsStorable(b) && Agrees(c.blocks, b)
    ensures IsSound(genesis, c.(blocks := c.blocks[b.hash := b]))
  {
    StoreKeepsTables(genesis, c, b, c.blocks[b.hash := b]);
  }

  lemma StoreKeepsTables(genesis: Block, c: Chain, b: Block, blocks': map<Hash, Block>)
    requires IsSound(genesis, c) && IsStorable(b) && Agrees(c.blocks, b) && blocks' == c.blocks[b.hash := b]
    ensures IsKeyed(blocks') && AreRecorded(genesis, blocks', c.td) && IsIndexed(blocks', c.canonical, c.head)
    ensures Grows(c.blocks, blocks')
  {
    AncestryStays(c.blocks, blocks', c.head);
    forall h | h in c.td && h != genesis.hash
      ensures IsRecorded(blocks', c.td, h)
    {
      assert IsRecorded(c.blocks, c.td, h);
    }
  }

  lemma GetTdStays(blocks: map<Hash, Block>, blocks': map<Hash, Block>, td: map<Hash, nat>, hash: Hash, number: nat)
    requires Grows(blocks, blocks') && GetTd(blocks, td, hash, number).Some?
    ensures GetTd(blocks', td, hash, number) == GetTd(blocks, td, hash, number)
  {
  }

  lemma RecordKeeps(genesis: Block, c: Chain, b: Block, ptd: nat)
    requires IsSound(genesis, c) && IsStorable(b) && Agrees(c.blocks, b)
    requires GetTd(c.blocks, c.td, b.parent, Previous(b.number)) == Some(ptd)
    ensures var d := Recorded(c, b, ptd);
            && IsSound(genesis, d) && IsComplete(d.blocks, b)
            && forall h :: h in c.td ==> d.td[h] == c.td[h]
  {
    var blocks', td' := c.blocks[b.hash := b], c.td[b.hash := (ptd + b.difficulty) % TT256];
    assert Recorded(c, b, ptd) == Chain(blocks', td', c.canonical, c.head);
    StoreKeepsTables(genesis, c, b, blocks');
    GetTdStays(c.blocks, blocks', c.td, b.parent, Previous(b.number));
    RecordOne(genesis, blocks', c.td, b, ptd, td');
    RecordedDescends(genesis, blocks', td', b.hash);
  }

  lemma RecordOne(genesis: Block, blocks: map<Hash, Block>, td: map<Hash, nat>, b: Block, ptd: nat, td': map<Hash, nat>)
    requires IsKeyed(blocks) && AreRecorded(genesis, blocks, td) && IsStored(blocks, b)
    requires GetTd(blocks, td, b.parent, Previous(b.number)) == Some(ptd)
    requires td' == td[b.hash := (ptd + b.difficulty) % TT256]
    ensures AreRecorded(genesis, blocks, td') && forall h :: h in td ==> td'[h] == td[h]
  {
    assert b.hash in td && b.hash != genesis.hash ==> IsRecorded(blocks, td, b.hash);
    forall h | h in td' && h != genesis.hash
      ensures IsRecorded(blocks, td', h)
    {
      assert h in td ==> IsRecorded(blocks, td, h);
    }
  }

  /** The outcome of writing a block: refused, kept on a side chain, or made
      the head with the index that belongs to it. */
  function Written(genesis: Block, c: Chain, b: Block, preserve: Block -> bool, coin: bool): Chain
    requires IsSound(genesis, c) && IsStorable(b) && Agrees(c.blocks, b)
  {
    var ptd := GetTd(c.blocks, c.td, b.parent, Previous(b.number));
    if ptd.None? then c
    else
      var d := Recorded(c, b, ptd.value);
      RecordKeeps(genesis, c, b, ptd.value);
      if Prevails(d, b, preserve, coin) then d.(canonical := Index(d.blocks, b), head := b) else d
  }

  /** Every step keeps the invariant, forgets no difficulty and never lowers the head's. */
  lemma WriteKeeps(genesis: Block, c: Chain, b: Block, preserve: Block -> bool, coin: bool)
    requires IsSound(genesis, c) && IsStorable(b) && Agrees(c.blocks, b)
    ensures var c' := Written(genesis, c, b, preserve, coin);
            && IsSound(genesis, c') && c'.td[c'.head.hash] >= c.td[c.head.hash]
            && (forall h :: h in c.td ==> h in c'.td && c'.td[h] == c.td[h])
            && ((c'.head == c.head && c'.canonical == c.canonical) || c'.head == b)
  {
    var ptd := GetTd(c.blocks, c.td, b.parent, Previous(b.number));
    if ptd.Some? { RecordKeeps(genesis, c, b, ptd.value); }
  }

  /** The fork choice: every step keeps the head a heaviest block of all recorded. */
  lemma WriteKeepsHeaviest(genesis: Block, c: Chain, b: Block, preserve: Block -> bool, coin: bool)
    requires IsSound(genesis, c) && IsStorable(b) && Agrees(c.blocks, b) && IsHeaviest(c)
    ensures IsHeaviest(Written(genesis, c, b, preserve, coin))
  {
    var ptd := GetTd(c.blocks, c.td, b.parent, Previous(b.number));
    if ptd.Some? { RecordKeeps(genesis, c, b, ptd.value); }
  }

  /** A block becomes the head if it is heavier than the head; if it is equally heavy
      and lower; or if it is also equally high and it alone is preserved, or neither
      is and the coin says so. */
  predicate IsAdopted(c: Chain, b: Block, td: nat, preserve: Block -> bool, coin: bool)
    requires c.head.hash in c.td
  {
    var headTd := c.td[c.head.hash];
    || td > headTd
    || (td == headTd && b.number < c.head.number)
    || (td == headTd && b.number == c.head.number && !preserve(c.head) && (preserve(b) || coin))
  }

  lemma PrevailsIs(c: Chain, d: Chain, b: Block, preserve: Block -> bool, coin: bool)
    requires c.head.hash in c.td && d.head == c.head && c.head.hash in d.td && b.hash in d.td
    requires d.td[c.head.hash] == c.td[c.head.hash]
    ensures Prevails(d, b, preserve, coin) == IsAdopted(c, b, d.td[b.hash], preserve, coin)
  {
  }

  lemma AdoptedIsHead(genesis: Block, c: Chain, b: Block, preserve: Block -> bool, coin: bool, ptd: nat)
    requires IsSound(genesis, c) && IsStorable(b) && Agrees(c.blocks, b)
    requires GetTd(c.blocks, c.td, b.parent, Previous(b.number)) == Some(ptd)
    ensures var d := Recorded(c, b, ptd);
            && c.head.hash in d.td
            && Prevails(d, b, preserve, coin) == IsAdopted(c, b, d.td[b.hash], preserve, coin)
            && Written(genesis, c, b, preserve, coin).head == if Prevails(d, b, preserve, coin) then b else c.head
  {
    var d := Recorded(c, b, ptd);
    RecordKeeps(genesis, c, b, ptd);
    PrevailsIs(c, d, b, preserve, coin);
  }

  /** The cases of the choice between the head and a block. */
  predicate IsChosen(c: Chain, b: Block, td: nat, preserve: Block -> bool, coin: bool, head: Block)
    requires c.head.hash in c.td
  {
    var headTd := c.td[c.head.hash];
    && (td > headTd ==> head == b)
    && (td < headTd ==> head == c.head)
    && (td == headTd && b.number < c.head.number ==> head == b)
    && (td == headTd && b.number > c.head.number ==> head == c.head)
    && (td == headTd && b.number == c.head.number ==>
          head == if !preserve(c.head) && (preserve(b) || coin) then b else c.head)
  }

  lemma AdoptedIsChosen(c: Chain, b: Block, td: nat, preserve: Block -> bool, coin: bool, head: Block)
    requires c.head.hash in c.td && head == if IsAdopted(c, b, td, preserve, coin) then b else c.head
    ensures IsChosen(c, b, td, preserve, coin, head)
  {
  }

  /** Which block is the head after a write, case by case. */
  lemma HeadAfterWrite(genesis: Block, c: Chain, b: Block, preserve: Block -> bool, coin: bool, ptd: nat)
    requires IsSound(genesis, c) && IsStorable(b) && Agrees(c.blocks, b)
    requires GetTd(c.blocks, c.td, b.parent, Previous(b.number)) == Some(ptd)
    ensures var td, head := Recorded(c, b, ptd).td[b.hash], Written(genesis, c, b, preserve, coin).head;
            IsChosen(c, b, td, preserve, coin, head)
  {
    AdoptedIsHead(genesis, c, b, preserve, coin, ptd);
    AdoptedIsChosen(c, b, Recorded(c, b, ptd).td[b.hash], preserve, coin, Written(genesis, c, b, preserve, coin).head);
  }

  /** Equally heavy, the lower block is the head, and of equally high ones the coin
      decides unless one is preserved. */
  lemma HeadOnTie(genesis: Block, c: Chain, b: Block, preserve: Block -> bool, coin: bool, ptd: nat)
    requires IsSound(genesis, c) && IsStorable(b) && Agrees(c.blocks, b)
    requires GetTd(c.blocks, c.td, b.parent, Previous(b.number)) == Some(ptd)
    requires (ptd + b.difficulty) % TT256 == c.td[c.head.hash]
    ensures var head := Written(genesis, c, b, preserve, coin).head;
            if b.number < c.head.number then head == b
            else if b.number > c.head.number then head == c.head
            else head == if !preserve(c.head) && (preserve(b) || coin) then b else c.head
  {
    RecordedTd(c, b, ptd);
    HeadAfterWrite(genesis, c, b, preserve, coin, ptd);
  }

  /** With the difficulty that is recorded. */
  lemma RecordedTd(c: Chain, b: Block, ptd: nat)
    ensures Recorded(c, b, ptd).td[b.hash] == (ptd + b.difficulty) % TT256
  {
  }

  // ----- runs -----

  datatype Event = WithState(block: Block, coin: bool) | WithoutState(block: Block)

  /** A sound chain with a heaviest block as its head, whose blocks all come from
      one collision-free universe. */
  ghost predicate IsReachable(genesis: Block, universe: map<Hash, Block>, c: Chain)
  {
    IsKeyed(universe) && IsSound(genesis, c) && IsHeaviest(c) && Grows(c.blocks, universe)
  }

  ghost function Next(genesis: Block, universe: map<Hash, Block>, preserve: Block -> bool, c: Chain,
                      e: Event): (r: Chain)
    requires IsReachable(genesis, universe, c) && IsStored(universe, e.block)
    ensures IsReachable(genesis, universe, r) && NoLess(c, r)
  {
    match e
    case WithState(b, coin) =>
      WriteKeeps(genesis, c, b, preserve, coin);
      WriteKeepsHeaviest(genesis, c, b, preserve, coin);
      Written(genesis, c, b, preserve, coin)
    case WithoutState(b) =>
      StoreKeeps(genesis, c, b);
      c.(blocks := c.blocks[b.hash := b])
  }

  /** No recorded difficulty changes, and the head's does not fall. */
  ghost predicate NoLess(c: Chain, r: Chain)
  {
    && c.head.hash in c.td && r.head.hash in r.td && r.td[r.head.hash] >= c.td[c.head.hash]
    && forall h :: h in c.td ==> h in r.td && r.td[h] == c.td[h]
  }

  /** Every run of block writes, under every outcome of the coin. */
  ghost function Run(genesis: Block, universe: map<Hash, Block>, preserve: Block -> bool, c: Chain,
                     es: seq<Event>): (r: Chain)
    requires IsReachable(genesis, universe, c)
    requires forall i :: 0 <= i < |es| ==> IsStored(universe, es[i].block)
    ensures IsReachable(genesis, universe, r) && NoLess(c, r)
    decreases |es|
  {
    if es == [] then c
    else Run(genesis, universe, preserve, Next(genesis, universe, preserve, c, es[0]), es[1..])
  }

  // ----- the walk to the common ancestor -----

  ghost predicate Meet(blocks: map<Hash, Block>, x: Block, y: Block)
    requires IsKeyed(blocks)
  {
    exists b :: b in Ancestry(blocks, x) && b in Ancestry(blocks, y)
  }

  /** The number of the oldest ancestor stored. */
  ghost function Oldest(blocks: map<Hash, Block>, b: Block): nat
    requires IsKeyed(blocks)
  {
    b.number + 1 - |Ancestry(blocks, b)|
  }

  ghost predicate AllAbove(bs: seq<Block>, number: int)
  {
    forall b :: b in bs ==> b.number > number
  }

  ghost predicate NoneAbove(bs: seq<Block>, number: int)
  {
    forall b :: b in bs ==> b.number <= number
  }

  lemma AncestryNumbers(blocks: map<Hash, Block>, b: Block)
    requires IsKeyed(blocks)
    ensures NoneAbove(Ancestry(blocks, b), b.number) && AllAbove(Ancestry(blocks, b), Oldest(blocks, b) - 1)
    ensures NoneAbove(Ancestry(blocks, b)[1..], b.number - 1)
  {
    forall i | 0 <= i < |Ancestry(blocks, b)|
      ensures Ancestry(blocks, b)[i].number == b.number - i
    {
      AncestryAt(blocks, b, i);
    }
  }

  ghost function From(blocks: map<Hash, Block>, r: Option<Block>): seq<Block>
    requires IsKeyed(blocks)
  {
    if r.Some? then Ancestry(blocks, r.value) else []
  }

  /** One side is walked down to a number, or to its end. */
  method Reduce(blocks: map<Hash, Block>, b: Block, number: nat) returns (r: Option<Block>, passed: seq<Block>)
    requires IsKeyed(blocks) && IsStored(blocks, b) && number <= b.number
    ensures Ancestry(blocks, b) == passed + From(blocks, r)
    ensures r.Some? ==> r.value.number == number && IsStored(blocks, r.value)
    ensures AllAbove(passed, number)
  {
    r, passed := Some(b), [];
    while r.Some? && r.value.number != number
      invariant Ancestry(blocks, b) == passed + From(blocks, r)
      invariant r.Some? ==> r.value.number >= number && IsStored(blocks, r.value)
      invariant AllAbove(passed, number)
      decreases if r.Some? then r.value.number + 1 else 0
    {
      passed := passed + [r.value];
      r := ParentOf(blocks, r.value);
    }
  }

  /** The state of the walk: what is passed on each side, and nothing in common. */
  ghost predicate Walked(blocks: map<Hash, Block>, x0: Block, y0: Block, x: Block, y: Block,
                         xs: seq<Block>, ys: seq<Block>)
    requires IsKeyed(blocks)
  {
    && Ancestry(blocks, x0) == xs + Ancestry(blocks, x) && Ancestry(blocks, y0) == ys + Ancestry(blocks, y)
    && x.number == y.number && AllAbove(xs, x.number) && AllAbove(ys, x.number)
    && IsStored(blocks, x) && IsStored(blocks, y)
    && forall b :: b in xs ==> b !in ys
  }

  lemma WalkEnds(blocks: map<Hash, Block>, x0: Block, y0: Block, x: Block, y: Block, xs: seq<Block>, ys: seq<Block>)
    requires IsKeyed(blocks) && Walked(blocks, x0, y0, x, y, xs, ys) && x.hash != y.hash
    requires ParentOf(blocks, x).None? || ParentOf(blocks, y).None?
    ensures !Meet(blocks, x0, y0)
    ensures ParentOf(blocks, x).None? <==> Oldest(blocks, x0) >= Oldest(blocks, y0)
  {
    AncestryNumbers(blocks, x);
    AncestryNumbers(blocks, y);
    assert Ancestry(blocks, x) == [x] + Ancestry(blocks, x)[1..];
    assert Ancestry(blocks, y) == [y] + Ancestry(blocks, y)[1..];
    AncestryAt(blocks, x0, |xs|);
    AncestryAt(blocks, y0, |ys|);
  }

  /** What the walk of reorg finds: the ancestor the two chains share and what
      lies above it on either side, or which of them ends first. */
  ghost predicate IsSplit(blocks: map<Hash, Block>, x: Block, y: Block, common: Block, xs: seq<Block>, ys: seq<Block>)
    requires IsKeyed(blocks)
  {
    && Ancestry(blocks, x) == xs + Ancestry(blocks, common) && Ancestry(blocks, y) == ys + Ancestry(blocks, common)
    && forall b :: b in xs ==> b !in ys
  }

  ghost predicate IsBroken(blocks: map<Hash, Block>, x: Block, y: Block, e: Error)
    requires IsKeyed(blocks)
  {
    !Meet(blocks, x, y) && e == if Oldest(blocks, x) >= Oldest(blocks, y) then InvalidOldChain else InvalidNewChain
  }

  lemma SplitMeets(blocks: map<Hash, Block>, x: Block, y: Block, common: Block, xs: seq<Block>, ys: seq<Block>)
    requires IsKeyed(blocks) && IsSplit(blocks, x, y, common, xs, ys)
    ensures Meet(blocks, x, y)
  {
    assert Ancestry(blocks, x)[|xs|] == common == Ancestry(blocks, y)[|ys|];
    assert common in Ancestry(blocks, x) && common in Ancestry(blocks, y);
  }

  /** Both sides step back together until they meet or one ends. */
  method WalkBack(blocks: map<Hash, Block>, x0: Block, y0: Block, x1: Block, y1: Block, xs1: seq<Block>,
                  ys1: seq<Block>)
    returns (err: Option<Error>, common: Block, xs: seq<Block>, ys: seq<Block>)
    requires IsKeyed(blocks) && Walked(blocks, x0, y0, x1, y1, xs1, ys1)
    ensures err.Some? ==> IsBroken(blocks, x0, y0, err.value)
    ensures err.None? ==> IsSplit(blocks, x0, y0, common, xs, ys)
  {
    var x, y := x1, y1;
    xs, ys, common, err := xs1, ys1, x1, None;
    while x.hash != y.hash
      invariant Walked(blocks, x0, y0, x, y, xs, ys)
      decreases x.number
    {
      var p, q := ParentOf(blocks, x), ParentOf(blocks, y);
      if p.None? {
        WalkEnds(blocks, x0, y0, x, y, xs, ys);
        return Some(InvalidOldChain), common, xs, ys;
      }
      if q.None? {
        WalkEnds(blocks, x0, y0, x, y, xs, ys);
        return Some(InvalidNewChain), common, xs, ys;
      }
      xs, ys := xs + [x], ys + [y];
      x, y := p.value, q.value;
    }
    common := x;
  }

  /** The first half of reorg. */
  method FindCommon(blocks: map<Hash, Block>, old_: Block, new_: Block)
    returns (err: Option<Error>, common: Block, oldChain: seq<Block>, newChain: seq<Block>)
    requires IsKeyed(blocks) && IsStored(blocks, old_) && IsStored(blocks, new_)
    ensures err.None? <==> Meet(blocks, old_, new_)
    ensures err.Some? ==> IsBroken(blocks, old_, new_, err.value)
    ensures err.None? ==> IsSplit(blocks, old_, new_, common, oldChain, newChain)
  {
    var x, y := Some(old_), Some(new_);
    oldChain, newChain, common := [], [], old_;
    if old_.number > new_.number {
      x, oldChain := Reduce(blocks, old_, new_.number);
    } else {
      y, newChain := Reduce(blocks, new_, old_.number);
    }
    if x.None? {
      TooShort(blocks, old_, new_);
      return Some(InvalidOldChain), common, oldChain, newChain;
    }
    if y.None? {
      TooShort(blocks, new_, old_);
      return Some(InvalidNewChain), common, oldChain, newChain;
    }
    err, common, oldChain, newChain := WalkBack(blocks, old_, new_, x.value, y.value, oldChain, newChain);
    if err.None? { SplitMeets(blocks, old_, new_, common, oldChain, newChain); }
  }

  lemma TooShort(blocks: map<Hash, Block>, x: Block, y: Block)
    requires IsKeyed(blocks) && AllAbove(Ancestry(blocks, x), y.number)
    ensures !Meet(blocks, x, y) && !Meet(blocks, y, x) && Oldest(blocks, x) > Oldest(blocks, y)
  {
    AncestryNumbers(blocks, y);
    var a := Ancestry(blocks, x);
    AncestryAt(blocks, x, |a| - 1);
    assert a[|a| - 1] in a;
  }

  // ----- rewriting the index -----

  /** The markers once the added blocks from `k` on are written, oldest first. */
  function Marked(canonical: map<nat, Hash>, added: seq<Block>, k: nat): map<nat, Hash>
    decreases |added| - k
  {
    if k >= |added| then canonical else Marked(canonical, added, k + 1)[added[k].number := added[k].hash]
  }

  /** TruncateCanonicalHash, where the loop of reorg finds a marker to remove. */
  function Truncated(canonical: map<nat, Hash>, from: nat): map<nat, Hash>
  {
    if from in canonical then map n | n in canonical && n < from :: canonical[n] else canonical
  }

  /** The number of the last marker reorg leaves. */
  function LastMarked(common: Block, added: seq<Block>): nat
  {
    if |added| > 1 then added[1].number else common.number
  }

  lemma {:induction false} MarkedAt(canonical: map<nat, Hash>, added: seq<Block>, k: nat, top: nat)
    requires k <= |added| && forall i :: 0 <= i < |added| ==> added[i].number == top - i
    ensures var m := Marked(canonical, added, k);
            && (forall n: nat :: n in m <==> n in canonical || top - |added| < n <= top - k)
            && (forall n: nat :: n in m ==>
                  m[n] == if top - |added| < n <= top - k then added[top - n].hash else canonical[n])
    decreases |added| - k
  {
    if k >= |added| {
    } else {
      MarkedAt(canonical, added, k + 1, top);
      var m, m' := Marked(canonical, added, k), Marked(canonical, added, k + 1);
      assert m == m'[top - k := added[k].hash];
      assert forall n: nat :: n in m <==> n in m' || n == top - k;
    }
  }

  /** Reorganised and headed by the new block, the index is the new block's. */
  lemma RewrittenIsIndex(blocks: map<Hash, Block>, head: Block, b: Block, common: Block, removed: seq<Block>,
                         added: seq<Block>)
    requires IsKeyed(blocks) && IsComplete(blocks, head) && IsComplete(blocks, b)
    requires IsSplit(blocks, head, b, common, removed, added)
    ensures Truncated(Marked(Index(blocks, head), added, 1), LastMarked(common, added) + 1)[b.number := b.hash] ==
              Index(blocks, b)
  {
    SplitNumbers(blocks, head, common, removed);
    SplitNumbers(blocks, b, common, added);
    CutIsIndex(blocks, head, b, common, removed, added);
  }

  /** A chain that leaves another one above `common`: its numbers there, and the
      hashes of both below. */
  ghost predicate Leaves(blocks: map<Hash, Block>, b: Block, common: Block, passed: seq<Block>)
    requires IsKeyed(blocks)
  {
    && IsComplete(blocks, b) && IsComplete(blocks, common) && b.number == common.number + |passed|
    && (forall i :: 0 <= i < |passed| ==> passed[i].number == b.number - i)
    && (forall n: nat :: n <= common.number ==> HashAt(blocks, b, n) == HashAt(blocks, common, n))
    && (forall n: nat :: common.number < n <= b.number ==> HashAt(blocks, b, n) == passed[b.number - n].hash)
  }

  lemma MarksAgree(blocks: map<Hash, Block>, head: Block, b: Block, common: Block, removed: seq<Block>,
                   added: seq<Block>)
    requires IsKeyed(blocks) && Leaves(blocks, head, common, removed) && Leaves(blocks, b, common, added)
    ensures var m := Marked(Index(blocks, head), added, 1);
            && (forall n: nat :: n in m <==> n <= head.number || common.number < n < b.number)
            && (forall n: nat :: n in m && n < CutFrom(b, added) ==> n <= b.number && m[n] == HashAt(blocks, b, n))
  {
    if added != [] { MarkedAt(Index(blocks, head), added, 1, b.number); }
  }

  /** The first number whose marker reorg removes. */
  function CutFrom(b: Block, added: seq<Block>): nat
  {
    if added != [] then b.number else b.number + 1
  }

  lemma CutIsIndex(blocks: map<Hash, Block>, head: Block, b: Block, common: Block, removed: seq<Block>,
                   added: seq<Block>)
    requires IsKeyed(blocks) && Leaves(blocks, head, common, removed) && Leaves(blocks, b, common, added)
    ensures Truncated(Marked(Index(blocks, head), added, 1), LastMarked(common, added) + 1)[b.number := b.hash] ==
              Index(blocks, b)
  {
    var m, target := Marked(Index(blocks, head), added, 1), Index(blocks, b);
    MarksAgree(blocks, head, b, common, removed, added);
    LastMarkedIs(b, common, added);
    IndexAt(blocks, b);
    Cut(m, target, head.number, common.number, b.number, CutFrom(b, added));
  }

  lemma IndexAt(blocks: map<Hash, Block>, b: Block)
    requires IsKeyed(blocks) && IsComplete(blocks, b)
    ensures forall n: nat :: n in Index(blocks, b) <==> n <= b.number
    ensures forall n: nat :: n <= b.number ==> Index(blocks, b)[n] == HashAt(blocks, b, n)
    ensures Index(blocks, b)[b.number] == b.hash
  {
  }

  lemma LastMarkedIs(b: Block, common: Block, added: seq<Block>)
    requires b.number == common.number + |added| && forall i :: 0 <= i < |added| ==> added[i].number == b.number - i
    ensures LastMarked(common, added) + 1 == CutFrom(b, added)
  {
  }

  lemma Cut(m: map<nat, Hash>, target: map<nat, Hash>, top: nat, mid: nat, last: nat, from: nat)
    requires mid <= top && mid <= last && from == (if mid < last then last else last + 1)
    requires forall n: nat :: n in m <==> n <= top || mid < n < last
    requires forall n: nat :: n in target <==> n <= last
    requires forall n: nat :: n in m && n < from ==> m[n] == target[n]
    ensures Truncated(m, from)[last := target[last]] == target
  {
  }

  /** The numbers along a chain that splits, and the hashes they share below. */
  lemma SplitNumbers(blocks: map<Hash, Block>, b: Block, common: Block, passed: seq<Block>)
    requires IsKeyed(blocks) && IsComplete(blocks, b)
    requires Ancestry(blocks, b) == passed + Ancestry(blocks, common)
    ensures Leaves(blocks, b, common, passed)
  {
    AncestryAt(blocks, b, |passed|);
    assert Ancestry(blocks, b)[|passed|] == Ancestry(blocks, common)[0];
    forall i | 0 <= i < |passed|
      ensures passed[i].number == b.number - i
    {
      AncestryAt(blocks, b, i);
    }
    forall n: nat | n <= b.number
      ensures n <= common.number ==> HashAt(blocks, b, n) == HashAt(blocks, common, n)
      ensures common.number < n ==> HashAt(blocks, b, n) == passed[b.number - n].hash
    {
      SplitHash(Ancestry(blocks, b), passed, Ancestry(blocks, common), b.number, common.number, n);
    }
  }

  lemma SplitHash(a: seq<Block>, passed: seq<Block>, c: seq<Block>, top: nat, low: nat, n: nat)
    requires a == passed + c && |a| == top + 1 && |c| == low + 1 && n <= top
    ensures if n <= low then HashIn(a, top, n) == HashIn(c, low, n)
            else top - n < |passed| && HashIn(a, top, n) == passed[top - n].hash
  {
  }

  // ----- BlockChain -----

  /** Recorded blocks share genesis, so between them reorg never fails. */
  lemma RecordedMeet(genesis: Block, blocks: map<Hash, Block>, td: map<Hash, nat>, x: Block, y: Block)
    requires IsKeyed(blocks) && AreRecorded(genesis, blocks, td)
    requires IsStored(blocks, x) && IsStored(blocks, y) && x.hash in td && y.hash in td
    ensures Meet(blocks, x, y)
  {
    RecordedDescends(genesis, blocks, td, x.hash);
    RecordedDescends(genesis, blocks, td, y.hash);
    assert genesis in Ancestry(blocks, x) && genesis in Ancestry(blocks, y);
  }

  /** The index after reorg and the new head's own marker. */
  lemma ReorgIndexes(genesis: Block, c: Chain, b: Block, common: Block, removed: seq<Block>, added: seq<Block>)
    requires IsSound(genesis, c) && IsStored(c.blocks, b) && b.hash in c.td
    requires IsSplit(c.blocks, c.head, b, common, removed, added)
    ensures IsComplete(c.blocks, b)
    ensures Truncated(Marked(c.canonical, added, 1), LastMarked(common, added) + 1)[b.number := b.hash] ==
              Index(c.blocks, b)
  {
    RecordedDescends(genesis, c.blocks, c.td, b.hash);
    RewrittenIsIndex(c.blocks, c.head, b, common, removed, added);
  }

  /** The index after a child of the head. */
  lemma ChildIndexes(genesis: Block, c: Chain, b: Block)
    requires IsSound(genesis, c) && IsStored(c.blocks, b) && b.hash in c.td && ParentOf(c.blocks, b) == Some(c.head)
    ensures IsComplete(c.blocks, b) && c.canonical[b.number := b.hash] == Index(c.blocks, b)
  {
    assert IsSplit(c.blocks, c.head, b, c.head, [], [b]);
    ReorgIndexes(genesis, c, b, c.head, [], [b]);
    assert Marked(c.canonical, [b], 1) == c.canonical;
  }

  class BlockChain {
    const genesis: Block
    const preserve: Block -> bool
    var blocks: map<Hash, Block>
    var td: map<Hash, nat>
    var canonical: map<nat, Hash>
    var currentBlock: Block

    ghost function Tables(): Chain
      reads this
    {
      Chain(blocks, td, canonical, currentBlock)
    }

    /** The tables as writing the genesis block leaves them. */
    constructor (genesis: Block, preserve: Block -> bool)
      requires genesis.number == 0 && genesis.hash != ZERO_HASH
      ensures this.genesis == genesis && this.preserve == preserve
      ensures IsSound(genesis, Tables()) && IsHeaviest(Tables()) && currentBlock == genesis
    {
      this.genesis, this.preserve := genesis, preserve;
      blocks, td, canonical := map[genesis.hash := genesis], map[genesis.hash := 0], map[0 := genesis.hash];
      currentBlock := genesis;
      new;
      GenesisIsSound(genesis);
    }

    method WriteHeadBlock(b: Block)
      modifies this`blocks, this`canonical, this`currentBlock
      ensures blocks == old(blocks)[b.hash := b] && canonical == old(canonical)[b.number := b.hash]
      ensures currentBlock == b
    {
      blocks := blocks[b.hash := b];
      canonical := canonical[b.number := b.hash];
      currentBlock := b;
    }

    /** The second half of reorg: the blocks to add but the first, oldest first. */
    method MarkAdded(added: seq<Block>)
      requires forall i :: 0 <= i < |added| ==> IsStored(blocks, added[i])
      modifies this`blocks, this`canonical, this`currentBlock
      ensures blocks == old(blocks) && canonical == Marked(old(canonical), added, 1)
      ensures currentBlock == if |added| > 1 then added[1] else old(currentBlock)
    {
      var i := |added| - 1;
      while i >= 1
        invariant -1 <= i < |added| && (added != [] ==> i >= 0)
        invariant blocks == old(blocks) && canonical == Marked(old(canonical), added, i + 1)
        invariant currentBlock == if i + 1 < |added| then added[i + 1] else old(currentBlock)
      {
        WriteHeadBlock(added[i]);
        assert blocks == old(blocks);
        i := i - 1;
      }
    }

    /** Its loop over the markers above. */
    method DropMarkers(from: nat)
      modifies this`canonical
      ensures canonical == Truncated(old(canonical), from)
    {
      var i := from;
      while i in canonical
        invariant i >= from
        invariant i == from ==> canonical == old(canonical)
        invariant i > from ==> i !in canonical && canonical == Truncated(old(canonical), from)
        decreases if i in canonical then 1 else 0
      {
        canonical := map n | n in canonical && n < i :: canonical[n];
        i := i + 1;
      }
    }

    /** reorg: nothing changes if the chains do not meet. */
    method Reorg(oldBlock: Block, newBlock: Block)
      returns (err: Option<Error>, ghost common: Block, ghost removed: seq<Block>, ghost added: seq<Block>)
      requires IsKeyed(blocks) && IsStored(blocks, oldBlock) && IsStored(blocks, newBlock)
      modifies this`blocks, this`canonical, this`currentBlock
      ensures blocks == old(blocks)
      ensures err.None? <==> Meet(blocks, oldBlock, newBlock)
      ensures err.Some? ==> IsBroken(blocks, oldBlock, newBlock, err.value)
      ensures err.Some? ==> canonical == old(canonical) && currentBlock == old(currentBlock)
      ensures err.None? ==>
                && IsSplit(blocks, oldBlock, newBlock, common, removed, added)
                && canonical == Truncated(Marked(old(canonical), added, 1), LastMarked(common, added) + 1)
    {
      var c, oldChain, newChain;
      err, c, oldChain, newChain := FindCommon(blocks, oldBlock, newBlock);
      common, removed, added := c, oldChain, newChain;
      if err.Some? {
        return;
      }
      AddedAreStored(blocks, newBlock, common, added);
      MarkAdded(newChain);
      var number := if |newChain| > 1 then newChain[1].number else c.number;
      DropMarkers(number + 1);
    }

    /** WriteBlockWithoutState: the block is kept, no difficulty is recorded. */
    method WriteBlockWithoutState(b: Block)
      requires IsStorable(b) && Agrees(blocks, b)
      modifies this`blocks
      ensures blocks == old(blocks)[b.hash := b]
      ensures old(IsSound(genesis, Tables())) ==> IsSound(genesis, Tables())
    {
      if IsSound(genesis, Tables()) { StoreKeeps(genesis, Tables(), b); }
      blocks := blocks[b.hash := b];
    }

    /** writeBlockWithState. */
    method WriteBlockWithState(b: Block, coin: bool) returns (err: Option<Error>, status: Status)
      requires IsKeyed(blocks) && IsStored(blocks, currentBlock) && currentBlock.hash in td
      requires IsStorable(b) && Agrees(blocks, b)
      modifies this
      ensures IsKeyed(blocks)
      ensures err.Some? ==> canonical == old(canonical) && currentBlock == old(currentBlock)
      ensures err == Some(UnknownAncestor) <==> GetTd(old(blocks), old(td), b.parent, Previous(b.number)).None?
      ensures err == Some(UnknownAncestor) ==> Tables() == old(Tables())
      ensures err.Some? && err != Some(UnknownAncestor) ==> IsBroken(blocks, currentBlock, b, err.value)
      ensures old(IsSound(genesis, Tables())) ==>
                && Tables() == Written(genesis, old(Tables()), b, preserve, coin)
                && (err.None? || err.value.UnknownAncestor?)
                && (err.None? ==>
                      (status == Canon <==> IsAdopted(old(Tables()), b, td[b.hash], preserve, coin)))
    {
      status := Side;
      ghost var c := Tables();
      var ptd := GetTd(blocks, td, b.parent, Previous(b.number));
      if ptd.None? {
        return Some(UnknownAncestor), Side;
      }
      td := td[b.hash := (ptd.value + b.difficulty) % TT256];
      blocks := blocks[b.hash := b];
      ghost var d := Tables();
      assert d == Recorded(c, b, ptd.value);
      if IsSound(genesis, c) {
        RecordKeeps(genesis, c, b, ptd.value);
        AdoptedIsHead(genesis, c, b, preserve, coin, ptd.value);
      }
      err := None;
      var reorg := ReorgNeeded(td[currentBlock.hash], td[b.hash], currentBlock.number, b.number,
                               preserve(currentBlock), preserve(b), coin);
      if reorg {
        err := Adopt(b);
        if err.Some? {
          return;
        }
        status := Canon;
      }
    }

    /** Its last part: reorganise unless the parent is the head, then set the head. */
    method Adopt(b: Block) returns (err: Option<Error>)
      requires IsKeyed(blocks) && IsStored(blocks, currentBlock) && IsStored(blocks, b) && ParentOf(blocks, b).Some?
      modifies this`blocks, this`canonical, this`currentBlock
      ensures blocks == old(blocks)
      ensures err.Some? ==> IsBroken(blocks, currentBlock, b, err.value)
      ensures err.Some? ==> canonical == old(canonical) && currentBlock == old(currentBlock)
      ensures old(IsSound(genesis, Tables())) && b.hash in td ==>
                err.None? && IsComplete(blocks, b) && canonical == Index(blocks, b) && currentBlock == b
    {
      err := None;
      ghost var c := Tables();
      if b.parent != currentBlock.hash {
        ghost var common, removed, added;
        err, common, removed, added := Reorg(currentBlock, b);
        if err.Some? {
          if IsSound(genesis, c) && b.hash in td { RecordedMeet(genesis, blocks, td, c.head, b); }
          return;
        }
        if IsSound(genesis, c) && b.hash in td { ReorgIndexes(genesis, c, b, common, removed, added); }
      } else if IsSound(genesis, c) && b.hash in td {
        ChildIndexes(genesis, c, b);
      }
      assert blocks[b.hash := b] == blocks;
      WriteHeadBlock(b);
    }
  }

  lemma AddedAreStored(blocks: map<Hash, Block>, b: Block, common: Block, added: seq<Block>)
    requires IsKeyed(blocks) && IsStored(blocks, b) && Ancestry(blocks, b) == added + Ancestry(blocks, common)
    ensures forall i :: 0 <= i < |added| ==> IsStored(blocks, added[i])
  {
    forall i | 0 <= i < |added|
      ensures IsStored(blocks, added[i])
    {
      AncestryAt(blocks, b, i);
    }
  }
}
