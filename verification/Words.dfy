/** Big-endian words: the integer/byte conversions of common/math/big.go that
    the contract ABI is built on, and the reads that undo them. */
module Words {
  import opened Common

  type Byte = b: int | 0 <= b < 256
  type Bytes = seq<Byte>

  /** Bytes per big.Word on a 64-bit platform. */
  const WORD_BYTES := 8

  function Pow256(n: nat): (r: nat)
    ensures r > 0
  {
    if n == 0 then 1 else 256 * Pow256(n - 1)
  }

  /** The number written big-endian in `s`. */
  function FromBE(s: Bytes): nat
  {
    if s == [] then 0 else 256 * FromBE(s[..|s| - 1]) + s[|s| - 1]
  }

  /** The low `len` bytes of `n`, most significant first. */
  function BE(n: nat, len: nat): (r: Bytes)
    ensures |r| == len
    decreases n, len
  {
    if len == 0 then [] else BE(n / 256, len - 1) + [n % 256]
  }

  lemma {:induction false} FromBEBound(s: Bytes)
    ensures FromBE(s) < Pow256(|s|)
  {
    if s == [] {
    } else {
      FromBEBound(s[..|s| - 1]);
    }
  }

  lemma DivModStep(n: nat, p: nat)
    requires p > 0
    ensures 256 * (n / 256 % p) + n % 256 == n % (256 * p)
  {
    var q, r := n / 256 / p, n / 256 % p;
    assert n / 256 == q * p + r;
    var m := 256 * r + n % 256;
    assert n == q * (256 * p) + m by {
      assert n == 256 * (q * p + r) + n % 256;
      assert 256 * (q * p) == q * (256 * p);
    }
    assert 0 <= m < 256 * p;
    ModOfSum(q, 256 * p, m);
  }

  /** The only quotient and remainder. */
  lemma ModOfSum(q: nat, d: nat, m: nat)
    requires m < d
    ensures (q * d + m) % d == m && (q * d + m) / d == q
  {
    var x := q * d + m;
    var q', r' := x / d, x % d;
    assert x == q' * d + r';
    assert (q' - q) * d == m - r' by { Distribute(q', q, d); }
    SmallMultiple(q' - q, d, m - r');
  }

  lemma Distribute(a: int, b: int, d: int)
    ensures (a - b) * d == a * d - b * d
  {
  }

  lemma SmallMultiple(k: int, d: int, m: int)
    requires k * d == m && -d < m < d
    ensures k == 0
  {
  }

  /** Reading back `len` bytes of `n` gives `n` modulo 256^len. */
  lemma {:induction false} BERoundTrip(n: nat, len: nat)
    ensures FromBE(BE(n, len)) == n % Pow256(len)
    decreases len
  {
    if len == 0 {
    } else {
      BERoundTrip(n / 256, len - 1);
      var s := BE(n / 256, len - 1) + [n % 256];
      assert s[..|s| - 1] == BE(n / 256, len - 1);
      DivModStep(n, Pow256(len - 1));
    }
  }

  /** The last `k` bytes hold the number modulo 256^k: the narrow reads. */
  lemma {:induction false} FromBESuffix(s: Bytes, k: nat)
    requires k <= |s|
    ensures FromBE(s[|s| - k..]) == FromBE(s) % Pow256(k)
    decreases k
  {
    if k == 0 {
    } else {
      var t := s[..|s| - 1];
      FromBESuffix(t, k - 1);
      var u := s[|s| - k..];
      assert u[..|u| - 1] == t[|t| - (k - 1)..];
      SuffixStep(FromBE(t), s[|s| - 1], Pow256(k - 1), FromBE(s));
    }
  }

  lemma SuffixStep(high: nat, low: Byte, p: nat, n: nat)
    requires p > 0 && n == 256 * high + low
    ensures 256 * (high % p) + low == n % (256 * p)
  {
    assert n / 256 == high && n % 256 == low;
    DivModStep(n, p);
  }

  lemma PowersOf256()
    ensures Pow256(1) == 0x100 && Pow256(2) == 0x1_0000 && Pow256(4) == 0x1_0000_0000
    ensures Pow256(8) == TT64 && Pow256(32) == TT256
  {
    assert Pow256(4) == 0x1_0000_0000;
    assert Pow256(8) == 0x1_0000_0000 * Pow256(4) by { PowAdd(4, 4); }
    assert Pow256(16) == TT64 * TT64 by { PowAdd(8, 8); }
    assert Pow256(32) == TT256 by { PowAdd(16, 16); }
  }

  lemma {:induction false} PowAdd(a: nat, b: nat)
    ensures Pow256(a + b) == Pow256(a) * Pow256(b)
  {
    if a == 0 {
    } else {
      PowAdd(a - 1, b);
    }
  }

  /** n shifted right by m bytes. */
  function Shift(n: nat, m: nat): nat
    decreases m
  {
    if m == 0 then n else Shift(n, m - 1) / 256
  }

  lemma {:induction false} ShiftFirst(n: nat, m: nat)
    requires m > 0
    ensures Shift(n / 256, m - 1) == Shift(n, m)
    decreases m
  {
    if m == 1 {
    } else {
      ShiftFirst(n, m - 1);
    }
  }

  lemma {:induction false} ShiftSmall(n: nat, m: nat)
    requires n < Pow256(m)
    ensures Shift(n, m) == 0
    decreases m
  {
    if m == 0 {
    } else {
      assert n / 256 < Pow256(m - 1);
      ShiftSmall(n / 256, m - 1);
      ShiftFirst(n, m);
    }
  }

  /** One more byte is added in front, taken from the next digit. */
  lemma {:induction false} BEFront(n: nat, m: nat)
    ensures BE(n, m + 1) == [Shift(n, m) % 256] + BE(n, m)
    decreases m
  {
    if m == 0 {
      assert BE(n, 1) == BE(n / 256, 0) + [n % 256];
    } else {
      BEFront(n / 256, m - 1);
      ShiftFirst(n, m);
      assert BE(n, m) == BE(n / 256, m - 1) + [n % 256];
    }
  }

  function Zeros(n: nat): (r: Bytes)
    ensures |r| == n
  {
    seq(n, _ => 0)
  }

  /** Bytes beyond the size of the number are zero. */
  lemma {:induction false} BEPadded(n: nat, len: nat, m: nat)
    requires m <= len && n < Pow256(m)
    ensures BE(n, len) == Zeros(len - m) + BE(n, m)
    decreases len
  {
    if m < len {
      BEPadded(n, len - 1, m);
      BEFront(n, len - 1);
      PowMono(m, len - 1);
      ShiftSmall(n, len - 1);
      assert Zeros(len - m) == [0] + Zeros(len - 1 - m);
    } else {
      assert Zeros(0) + BE(n, m) == BE(n, m);
    }
  }

  lemma {:induction false} PowMono(a: nat, b: nat)
    requires a <= b
    ensures Pow256(a) <= Pow256(b)
    decreases b
  {
    if a == b {
    } else {
      PowMono(a, b - 1);
    }
  }

  // ----- common/math/big.go -----

  /** Number of bits of x; zero has none. */
  function BitLen(x: nat): nat
  {
    if x == 0 then 0 else 1 + BitLen(x / 2)
  }

  function Pow2(n: nat): (r: nat)
    ensures r > 0
  {
    if n == 0 then 1 else 2 * Pow2(n - 1)
  }

  lemma {:induction false} BitLenAtMost(x: nat, k: nat)
    requires x < Pow2(k)
    ensures BitLen(x) <= k
    decreases k
  {
    if x == 0 {
    } else {
      BitLenAtMost(x / 2, k - 1);
    }
  }

  lemma {:induction false} Pow2Pow256(n: nat)
    ensures Pow2(8 * n) == Pow256(n)
  {
    if n == 0 {
    } else {
      Pow2Pow256(n - 1);
      assert Pow2(8 * n) == 2 * Pow2(8 * n - 1) == 4 * Pow2(8 * n - 2) == 8 * Pow2(8 * n - 3);
      assert Pow2(8 * n - 3) == 2 * Pow2(8 * n - 4) == 4 * Pow2(8 * n - 5) == 8 * Pow2(8 * n - 6);
      assert Pow2(8 * n - 6) == 2 * Pow2(8 * n - 7) == 4 * Pow2(8 * n - 8);
    }
  }

  /** How many bytes a number needs. */
  function ByteLen(x: nat): nat
  {
    (BitLen(x) + 7) / 8
  }

  /** big.Int.Bytes: the shortest big-endian form. */
  function MinimalBytes(x: nat): Bytes
  {
    BE(x, ByteLen(x))
  }

  lemma {:induction false} BitLenEnough(x: nat)
    ensures x < Pow2(BitLen(x))
  {
    if x == 0 {
    } else {
      BitLenEnough(x / 2);
    }
  }

  lemma {:induction false} Pow2Mono(a: nat, b: nat)
    requires a <= b
    ensures Pow2(a) <= Pow2(b)
    decreases b
  {
    if a == b {
    } else {
      Pow2Mono(a, b - 1);
    }
  }

  lemma ByteLenEnough(x: nat)
    ensures x < Pow256(ByteLen(x))
  {
    BitLenEnough(x);
    Pow2Mono(BitLen(x), 8 * ByteLen(x));
    Pow2Pow256(ByteLen(x));
  }

  /** A big.Int's magnitude: 64-bit words, least significant first. */
  ghost predicate AreWords(ws: seq<nat>)
  {
    forall i :: 0 <= i < |ws| ==> ws[i] < TT64
  }

  function Magnitude(ws: seq<nat>): nat
  {
    if ws == [] then 0 else ws[0] + TT64 * Magnitude(ws[1..])
  }

  /** big.Int.Bits. */
  function WordsOf(x: nat): (ws: seq<nat>)
    ensures AreWords(ws) && Magnitude(ws) == x
  {
    if x == 0 then [] else
      var rest := WordsOf(x / TT64);
      assert ([x % TT64] + rest)[1..] == rest;
      [x % TT64] + rest
  }

  lemma {:induction false} MagnitudeFits(ws: seq<nat>)
    requires AreWords(ws)
    ensures Magnitude(ws) < Pow256(WORD_BYTES * |ws|)
  {
    if ws == [] {
    } else {
      MagnitudeFits(ws[1..]);
      PowersOf256();
      PowAdd(WORD_BYTES, WORD_BYTES * |ws[1..]|);
    }
  }

  /** The bytes above the low m are those of the shifted number. */
  lemma {:induction false} BESplit(n: nat, m: nat, j: nat)
    ensures BE(n, m + j) == BE(Shift(n, m), j) + BE(n, m)
    decreases m
  {
    if m == 0 {
    } else {
      BESplit(n / 256, m - 1, j);
      ShiftFirst(n, m);
    }
  }

  /** Higher words do not show in the bytes of the lowest one. */
  lemma WordBytes(word: nat, more: nat, j: nat)
    requires j <= WORD_BYTES
    ensures BE(word + TT64 * more, j) == BE(word, j)
  {
    PowersOf256();
    BETail(word, more, WORD_BYTES, j);
  }

  lemma {:induction false} BETail(a: nat, b: nat, k: nat, j: nat)
    requires j <= k
    ensures BE(a + Pow256(k) * b, j) == BE(a, j)
    decreases j
  {
    if j == 0 {
    } else {
      var c := Pow256(k - 1) * b;
      assert Pow256(k) * b == 256 * c by { Assoc(256, Pow256(k - 1), b); }
      BETail(a / 256, b, k - 1, j - 1);
    }
  }

  lemma Assoc(x: nat, y: nat, z: nat)
    ensures x * y * z == x * (y * z)
  {
  }

  lemma {:induction false} ShiftShift(n: nat, m: nat, j: nat)
    ensures Shift(Shift(n, m), j) == Shift(n, m + j)
    decreases j
  {
    if j == 0 {
    } else {
      ShiftShift(n, m, j - 1);
    }
  }

  /** The inner loop of ReadBits: the bytes of one word, low byte first, go in
      front of what is already written, until the word or the buffer ends. */
  method WriteWord(word: nat, buf: array<Byte>, start: nat) returns (i: nat)
    requires start <= buf.Length
    modifies buf
    ensures i == if WORD_BYTES <= start then start - WORD_BYTES else 0
    ensures buf[..] == old(buf[..i]) + BE(word, start - i) + old(buf[start..])
  {
    i := start;
    var d, j := word, 0;
    while j < WORD_BYTES && i > 0
      invariant 0 <= j <= WORD_BYTES && 0 <= i == start - j
      invariant d == Shift(word, j)
      invariant buf[..i] == old(buf[..i])
      invariant buf[i..start] == BE(word, j)
      invariant buf[start..] == old(buf[start..])
      decreases WORD_BYTES - j
    {
      BEFront(word, j);
      ghost var before := buf[i..start];
      i := i - 1;
      buf[i] := d % 256;
      assert buf[i..start] == [d % 256] + before;
      d := d / 256;
      j := j + 1;
    }
    assert buf[..] == buf[..i] + buf[i..start] + buf[start..];
  }

  /** ReadBits writes the magnitude into the tail of the buffer, low byte last,
      as many bytes as the words or the buffer have; the rest is untouched. */
  method ReadBits(ws: seq<nat>, buf: array<Byte>)
    requires AreWords(ws)
    modifies buf
    ensures var n := if WORD_BYTES * |ws| <= buf.Length then WORD_BYTES * |ws| else buf.Length;
            buf[..] == old(buf[..buf.Length - n]) + BE(Magnitude(ws), n)
  {
    var i: nat := buf.Length;
    ghost var pre := buf[..];
    for k := 0 to |ws|
      invariant Wrote(pre, ws, k, i, buf[..])
    {
      var start := i;
      ghost var cur := buf[..];
      i := WriteWord(ws[k], buf, start);
      WroteNext(pre, ws, k, start, i, cur, buf[..]);
    }
  }

  /** The buffer after k words: the bytes from i on are written. */
  ghost predicate Wrote(pre: Bytes, ws: seq<nat>, k: nat, i: nat, cur: Bytes)
    requires k <= |ws|
  {
    && i == (if WORD_BYTES * k <= |pre| then |pre| - WORD_BYTES * k else 0)
    && (i > 0 ==> Shift(Magnitude(ws), |pre| - i) == Magnitude(ws[k..]))
    && cur == pre[..i] + BE(Magnitude(ws), |pre| - i)
  }

  lemma WroteNext(pre: Bytes, ws: seq<nat>, k: nat, start: nat, i: nat, cur: Bytes, cur': Bytes)
    requires AreWords(ws) && k < |ws| && Wrote(pre, ws, k, start, cur) && |cur| == |pre|
    requires i == (if WORD_BYTES <= start then start - WORD_BYTES else 0)
    requires cur' == cur[..i] + BE(ws[k], start - i) + cur[start..]
    ensures Wrote(pre, ws, k + 1, i, cur')
  {
    NextWord(ws, k, Magnitude(ws), |pre| - start, start - i);
    Glue(pre, start, i, BE(Magnitude(ws), |pre| - start), BE(ws[k], start - i));
  }

  lemma Glue(pre: Bytes, start: nat, i: nat, tail: Bytes, w: Bytes)
    requires i <= start <= |pre|
    ensures var mid := pre[..start] + tail; mid[..i] + w + mid[start..] == pre[..i] + (w + tail)
  {
  }

  /** One word of ReadBits, on the numbers. */
  lemma NextWord(ws: seq<nat>, k: nat, value: nat, m: nat, j: nat)
    requires AreWords(ws) && k < |ws| && j <= WORD_BYTES
    requires j > 0 ==> Shift(value, m) == Magnitude(ws[k..])
    ensures BE(value, m + j) == BE(ws[k], j) + BE(value, m)
    ensures j == WORD_BYTES ==> Shift(value, m + j) == Magnitude(ws[k + 1..])
  {
    if j > 0 {
      assert ws[k..][1..] == ws[k + 1..];
      WordOf(value, m, j, ws[k], Magnitude(ws[k + 1..]));
    }
  }

  lemma WordOf(value: nat, m: nat, j: nat, word: nat, more: nat)
    requires word < TT64 && 0 < j <= WORD_BYTES && Shift(value, m) == word + TT64 * more
    ensures BE(value, m + j) == BE(word, j) + BE(value, m)
    ensures j == WORD_BYTES ==> Shift(value, m + j) == more
  {
    BESplit(value, m, j);
    WordBytes(word, more, j);
    ShiftShift(value, m, j);
  }

  /** The whole number, in n bytes or as many more as it needs. */
  function Padded(x: nat, n: nat): Bytes
  {
    BE(x, if ByteLen(x) <= n then n else ByteLen(x))
  }

  /** PaddedBigBytes: a zeroed buffer that ReadBits fills from the end, unless the
      number needs it all. No byte of the number is lost. */
  method PaddedBigBytes(ws: seq<nat>, n: nat) returns (r: Bytes)
    requires AreWords(ws)
    ensures r == Padded(Magnitude(ws), n) && FromBE(r) == Magnitude(ws) && |r| >= n
  {
    ghost var x := Magnitude(ws);
    PaddedMeans(x, n);
    if BitLen(Magnitude(ws)) / 8 >= n {
      return MinimalBytes(Magnitude(ws));
    }
    var ret := new Byte[n](_ => 0);
    assert ret[..] == Zeros(n);
    ReadBits(ws, ret);
    ghost var m := WORD_BYTES * |ws|;
    if m < n {
      MagnitudeFits(ws);
      BEPadded(x, n, m);
      assert Zeros(n)[..n - m] == Zeros(n - m);
    }
    return ret[..];
  }

  lemma PaddedMeans(x: nat, n: nat)
    ensures FromBE(Padded(x, n)) == x
  {
    var k := if ByteLen(x) <= n then n else ByteLen(x);
    ByteLenEnough(x);
    PowMono(ByteLen(x), k);
    BERoundTrip(x, k);
    SmallMod(x, Pow256(k));
  }

  lemma SmallMod(x: nat, d: nat)
    requires x < d
    ensures x % d == x
  {
  }

  /** U256: reduction into the 256-bit two's complement range. */
  function U256(x: int): (r: nat)
    ensures r < TT256
  {
    x % TT256
  }

  /** The 32-byte two's complement word of a number. */
  function Word(n: int): (r: Bytes)
    ensures |r| == 32
  {
    BE(n % TT256, 32)
  }

  lemma WordRoundTrip(n: int)
    ensures FromBE(Word(n)) == n % TT256
  {
    assert Pow256(32) == TT256 by { PowersOf256(); }
    BERoundTrip(n % TT256, 32);
    SmallMod(n % TT256, TT256);
  }

  /** Whatever its size and sign, a number becomes the 32 bytes of its residue. */
  method U256Bytes(x: int) returns (r: Bytes)
    ensures r == Word(x)
  {
    PowersOf256();
    FitsPadding(U256(x), 32);
    r := PaddedBigBytes(WordsOf(U256(x)), 32);
  }

  /** A number that fits k bytes takes k bytes. */
  lemma FitsPadding(n: nat, k: nat)
    requires n < Pow256(k)
    ensures Padded(n, k) == BE(n, k)
  {
    Pow2Pow256(k);
    BitLenAtMost(n, 8 * k);
  }
}
