/** The ancestor-hash lookup of internal/evm.go and its growing cache. */
module AncestorHashes {
  import opened Common

  type Hash = nat

  datatype Header = Header(parentHash: Hash, number: nat)

  type Lookup = (Hash, nat) -> Option<Header>

  /** A header is found under its own number, below the 64-bit maximum. */
  ghost predicate IsKeyed(getHeader: Lookup)
  {
    forall h: Hash, k: nat :: getHeader(h, k).Some? ==> getHeader(h, k).value.number == k < TT64 - 1
  }

  /** 64-bit subtraction. */
  function Minus(a: nat, b: nat): (r: nat)
    requires a < TT64 && b <= TT64
    ensures r < TT64
  {
    if a >= b then a - b else TT64 + a - b
  }

  /** How many blocks can still be below block `k`. */
  function Left(k: nat): nat
  {
    if k == TT64 - 1 then 0 else k + 1
  }

  /** Walking parent links from scratch: `h` is the hash of block `k`. */
  ghost function Walk(getHeader: Lookup, h: Hash, k: nat, n: nat): Hash
    requires IsKeyed(getHeader) && k < TT64
    decreases Left(k)
  {
    if k == n then h
    else
      var header := getHeader(h, k);
      if header.None? then 0 else Walk(getHeader, header.value.parentHash, Minus(k, 1), n)
  }

  /** Hashes of blocks, from block `k` down, each the parent of the one before it. */
  ghost predicate IsLine(getHeader: Lookup, k: nat, line: seq<Hash>)
  {
    && 0 < |line| <= k + 1
    && forall i :: 0 <= i < |line| - 1 ==> getHeader(line[i], k - i) == Some(Header(line[i + 1], k - i))
  }

  /** Walking down a line gives the hash of the block asked for, and 0 below a block
      that is not found. */
  lemma {:induction false} WalkFollows(getHeader: Lookup, k: nat, line: seq<Hash>, n: nat)
    requires IsKeyed(getHeader) && k < TT64 && IsLine(getHeader, k, line) && n <= k
    ensures k - n < |line| ==> Walk(getHeader, line[0], k, n) == line[k - n]
    ensures k - n >= |line| && getHeader(line[|line| - 1], k - (|line| - 1)).None? ==>
              Walk(getHeader, line[0], k, n) == 0
    decreases |line|
  {
    if k == n || |line| == 1 {
    } else {
      assert getHeader(line[0], k) == Some(Header(line[1], k));
      assert IsLine(getHeader, k - 1, line[1..]) by {
        forall i | 0 <= i < |line[1..]| - 1
          ensures getHeader(line[1..][i], k - 1 - i) == Some(Header(line[1..][i + 1], k - 1 - i))
        {
          assert getHeader(line[i + 1], k - (i + 1)) == Some(Header(line[i + 2], k - (i + 1)));
        }
      }
      WalkFollows(getHeader, k - 1, line[1..], n);
    }
  }

  /** All hashes met on the way down. */
  ghost function Trail(getHeader: Lookup, h: Hash, k: nat): (r: seq<Hash>)
    requires IsKeyed(getHeader) && k < TT64
    ensures 0 < |r| <= Left(k) + 1
    decreases Left(k)
  {
    var header := getHeader(h, k);
    if header.None? then [h] else [h] + Trail(getHeader, header.value.parentHash, Minus(k, 1))
  }

  /** The trail, place by place, is what the walk finds. */
  lemma {:induction false} WalkIsTrail(getHeader: Lookup, h: Hash, k: nat, n: nat)
    requires IsKeyed(getHeader) && k < TT64 && n < TT64
    ensures var trail := Trail(getHeader, h, k);
            Walk(getHeader, h, k, n) == if Minus(k, n) < |trail| then trail[Minus(k, n)] else 0
    decreases Left(k)
  {
    var header := getHeader(h, k);
    if k == n || header.None? {
    } else {
      WalkIsTrail(getHeader, header.value.parentHash, Minus(k, 1), n);
      assert Minus(Minus(k, 1), n) == Minus(k, n) - 1;
    }
  }

  /** Where a proper prefix of the trail goes on. */
  lemma {:induction false} TrailNext(getHeader: Lookup, h: Hash, k: nat, i: nat)
    requires IsKeyed(getHeader) && k < TT64 && i < |Trail(getHeader, h, k)|
    ensures var trail := Trail(getHeader, h, k);
            var header := getHeader(trail[i], Minus(k, i));
            && (header.Some? <==> i + 1 < |trail|)
            && (header.Some? ==> trail[i + 1] == header.value.parentHash)
    decreases i
  {
    if i == 0 {
    } else {
      var parent := getHeader(h, k).value.parentHash;
      TrailNext(getHeader, parent, Minus(k, 1), i - 1);
      assert Minus(Minus(k, 1), i - 1) == Minus(k, i);
    }
  }

  /** The block number a place on the trail stands for, and back. */
  lemma Places(k: nat, n: nat, i: nat)
    requires k < TT64 && n < TT64 && i < TT64
    ensures Minus(k, i) == n <==> Minus(k, n) == i
    ensures i + 1 < TT64 ==> Minus(Minus(k, i), 1) == Minus(k, i + 1)
  {
  }

  /** What the loop of GetHashFn has read: a prefix of the trail, its last hash
      and the number of the block with that hash. */
  ghost predicate IsOnTrail(trail: seq<Hash>, k: nat, cache: seq<Hash>, last: Hash, number: nat)
  {
    k < TT64 && 0 < |cache| <= TT64 && cache <= trail && last == cache[|cache| - 1] && number == Minus(k, |cache| - 1)
  }

  /** One more header extends it by one hash, which is the one asked for exactly if
      the number is. */
  lemma Extends(getHeader: Lookup, h: Hash, k: nat, n: nat, cache: seq<Hash>, last: Hash, number: nat)
    requires IsKeyed(getHeader) && k < TT64 && n < TT64 && IsOnTrail(Trail(getHeader, h, k), k, cache, last, number)
    requires |cache| <= Minus(k, n)
    ensures var trail, header := Trail(getHeader, h, k), getHeader(last, number);
            if header.None? then |cache| == |trail|
            else
              var parent, number' := header.value.parentHash, Minus(header.value.number, 1);
              && IsOnTrail(trail, k, cache + [parent], parent, number')
              && (n == number' <==> |cache| == Minus(k, n))
  {
    TrailNext(getHeader, h, k, |cache| - 1);
    Places(k, n, |cache| - 1);
    Places(k, n, |cache|);
  }

  /** The place of block `n` on the trail, and the number the loop starts from. */
  lemma StartsAt(number: nat, n: nat, c: nat)
    requires number < TT64 && n < TT64 && 0 < c <= TT64
    ensures Minus(Minus(number, n), 1) == Minus(Minus(number, 1), n)
    ensures Minus(number, c) == Minus(Minus(number, 1), c - 1)
  {
  }

  /** The closure GetHashFn returns. */
  class GetHashFn {
    const ref: Header
    const getHeader: Lookup
    var cache: seq<Hash>

    /** The cache holds the first hashes of the trail. */
    ghost predicate Valid()
      reads this
    {
      IsKeyed(getHeader) && ref.number < TT64 && cache <= Trail(getHeader, ref.parentHash, Minus(ref.number, 1))
    }

    constructor (ref: Header, getHeader: Lookup)
      requires IsKeyed(getHeader) && ref.number < TT64
      ensures Valid() && this.ref == ref && this.getHeader == getHeader
    {
      this.ref, this.getHeader, cache := ref, getHeader, [];
    }

    /** The answer does not depend on the calls before. */
    method Get(n: nat) returns (hash: Hash)
      requires Valid() && n < TT64
      modifies this`cache
      ensures Valid() && old(cache) <= cache
      ensures hash == Walk(getHeader, ref.parentHash, Minus(ref.number, 1), n)
    {
      if |cache| == 0 {
        cache := [ref.parentHash];
      }
      ghost var k := Minus(ref.number, 1);
      ghost var trail := Trail(getHeader, ref.parentHash, k);
      var idx := Minus(Minus(ref.number, n), 1);
      WalkIsTrail(getHeader, ref.parentHash, k, n);
      StartsAt(ref.number, n, |cache|);
      if idx < |cache| {
        return cache[idx];
      }
      var lastKnownHash := cache[|cache| - 1];
      var lastKnownNumber := Minus(ref.number, |cache|);
      while true
        invariant IsOnTrail(trail, k, cache, lastKnownHash, lastKnownNumber) && |cache| <= idx && old(cache) <= cache
        decreases |trail| - |cache|
      {
        Extends(getHeader, ref.parentHash, k, n, cache, lastKnownHash, lastKnownNumber);
        var header := getHeader(lastKnownHash, lastKnownNumber);
        if header.None? {
          break;
        }
        cache := cache + [header.value.parentHash];
        lastKnownHash := header.value.parentHash;
        lastKnownNumber := Minus(header.value.number, 1);
        if n == lastKnownNumber {
          return lastKnownHash;
        }
      }
      return 0;
    }
  }
}
