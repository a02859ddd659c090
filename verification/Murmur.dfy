/**
 Streaming murmur3 hashing. A digest mixes whole four-byte blocks as they come and keeps up to
 three pending bytes in a small buffer of its own, which the appended input overwrites in place.
 */
module Murmur3 {

  const BLOCK := 4

  /** Four bytes as a little-endian word. */
  function Word(b: seq<bv8>): bv32
    requires |b| == BLOCK
  {
    (b[0] as bv32) | ((b[1] as bv32) << 8) | ((b[2] as bv32) << 16) | ((b[3] as bv32) << 24)
  }

  function Scramble(k: bv32): bv32 {
    (k * 0xcc9e2d51).RotateLeft(15) * 0x1b873593
  }

  function MixWord(h: bv32, k: bv32): bv32 {
    var x := (h ^ Scramble(k)).RotateLeft(13);
    x * 4 + x + 0xe6546b64
  }

  /** The running hash after all whole blocks of p. */
  function MixBlocks(h: bv32, p: seq<bv8>): bv32
    decreases |p|
  {
    if |p| < BLOCK then h else MixBlocks(MixWord(h, Word(p[..BLOCK])), p[BLOCK..])
  }

  /** The bytes of p behind its last whole block. */
  function Rest(p: seq<bv8>): (r: seq<bv8>)
    ensures |r| < BLOCK
    decreases |p|
  {
    if |p| < BLOCK then p else Rest(p[BLOCK..])
  }

  /** The pending bytes as a little-endian word. */
  function TailWord(tail: seq<bv8>): bv32
    requires |tail| < BLOCK
  {
    var k2 := if |tail| == 3 then (tail[2] as bv32) << 16 else 0;
    var k1 := if |tail| >= 2 then k2 ^ ((tail[1] as bv32) << 8) else k2;
    if |tail| >= 1 then k1 ^ (tail[0] as bv32) else k1
  }

  function Avalanche(h: bv32): bv32 {
    var c := (h ^ (h >> 16)) * 0x85ebca6b;
    var d := (c ^ (c >> 13)) * 0xc2b2ae35;
    d ^ (d >> 16)
  }

  function FinishWith(h: bv32, tail: seq<bv8>, len: bv32): bv32
    requires |tail| < BLOCK
  {
    Avalanche((if |tail| >= 1 then h ^ Scramble(TailWord(tail)) else h) ^ len)
  }

  /** Sum32: mixes in the pending bytes and the length. */
  function Finish(h: bv32, tail: seq<bv8>, clen: nat): bv32
    requires |tail| < BLOCK
  {
    FinishWith(h, tail, (clen % 0x1_0000_0000) as bv32)
  }

  // ----- a digest as a value -----

  datatype State = State(h1: bv32, tail: seq<bv8>, clen: nat)

  function Start(seed: bv32): State {
    State(seed, [], 0)
  }

  /** One Write. */
  function Feed(s: State, p: seq<bv8>): State {
    State(MixBlocks(s.h1, s.tail + p), Rest(s.tail + p), s.clen + |p|)
  }

  function FeedAll(s: State, chunks: seq<seq<bv8>>): State
    decreases |chunks|
  {
    if |chunks| == 0 then s else FeedAll(Feed(s, chunks[0]), chunks[1..])
  }

  function Concat(chunks: seq<seq<bv8>>): seq<bv8> {
    if |chunks| == 0 then [] else chunks[0] + Concat(chunks[1..])
  }

  /** Mixing may pause anywhere if the pending bytes are put in front of what follows. */
  lemma {:induction false} MixPauses(h: bv32, a: seq<bv8>, b: seq<bv8>)
    ensures MixBlocks(h, a + b) == MixBlocks(MixBlocks(h, a), Rest(a) + b)
    ensures Rest(a + b) == Rest(Rest(a) + b)
    decreases |a|
  {
    if |a| >= BLOCK {
      assert (a + b)[..BLOCK] == a[..BLOCK] && (a + b)[BLOCK..] == a[BLOCK..] + b;
      MixPauses(MixWord(h, Word(a[..BLOCK])), a[BLOCK..], b);
    }
  }

  lemma FeedTwice(s: State, a: seq<bv8>, b: seq<bv8>)
    ensures Feed(Feed(s, a), b) == Feed(s, a + b)
  {
    assert s.tail + (a + b) == (s.tail + a) + b;
    MixPauses(s.h1, s.tail + a, b);
  }

  /** However the input is cut into writes, the digest ends up as after one write of all of it. */
  lemma {:induction false} StreamingIsOneShot(s: State, chunks: seq<seq<bv8>>)
    requires |s.tail| < BLOCK
    ensures FeedAll(s, chunks) == Feed(s, Concat(chunks))
    decreases |chunks|
  {
    if |chunks| == 0 {
      assert s.tail + [] == s.tail;
    } else {
      StreamingIsOneShot(Feed(s, chunks[0]), chunks[1..]);
      FeedTwice(s, chunks[0], Concat(chunks[1..]));
    }
  }

  /** The hash of a whole input. */
  function Hash(data: seq<bv8>, seed: bv32): bv32 {
    Finish(MixBlocks(seed, data), Rest(data), |data|)
  }

  function Sum(s: State): bv32
    requires |s.tail| < BLOCK
  {
    Finish(s.h1, s.tail, s.clen)
  }

  lemma FedFromStart(seed: bv32, data: seq<bv8>)
    ensures Feed(Start(seed), data) == State(MixBlocks(seed, data), Rest(data), |data|)
  {
    assert [] + data == data;
  }

  lemma SumOfState(s: State, seed: bv32, data: seq<bv8>)
    requires s == State(MixBlocks(seed, data), Rest(data), |data|)
    ensures |s.tail| < BLOCK && Sum(s) == Hash(data, seed)
  {
  }

  /** The sum of a digest fed in pieces is the one-shot hash of the pieces put together. */
  lemma StreamedSum(seed: bv32, chunks: seq<seq<bv8>>)
    ensures var s := FeedAll(Start(seed), chunks); |s.tail| < BLOCK && Sum(s) == Hash(Concat(chunks), seed)
  {
    StreamingIsOneShot(Start(seed), chunks);
    FedFromStart(seed, Concat(chunks));
    SumOfState(FeedAll(Start(seed), chunks), seed, Concat(chunks));
  }

  // ----- published sums -----

  lemma LengthWord(n: nat, len: bv32)
    requires n == len as nat
    ensures (n % 0x1_0000_0000) as bv32 == len
  {
    assert (len as nat) as bv32 == len;
  }

  /** Less than a block: only the bytes at hand and the length are mixed in. */
  lemma ShortHash(data: seq<bv8>, seed: bv32, len: bv32)
    requires |data| < BLOCK && |data| == len as nat
    ensures Hash(data, seed) == FinishWith(seed, data, len)
  {
    LengthWord(|data|, len);
  }

  lemma OneBlockHash(data: seq<bv8>, seed: bv32)
    requires |data| == BLOCK
    ensures Hash(data, seed) == FinishWith(MixWord(seed, Word(data)), [], 4)
  {
    assert data[..BLOCK] == data && data[BLOCK..] == [];
    var h := MixWord(seed, Word(data));
    assert MixBlocks(seed, data) == MixBlocks(h, []) == h && Rest(data) == Rest([]) == [];
    LengthWord(BLOCK, 4);
  }

  lemma SumOfNothing(data: seq<bv8>)
    requires data == []
    ensures Hash(data, 0) == 0 && Hash(data, 1) == 0x514e28b7 && Hash(data, 0xffffffff) == 0x81f16f39
  {
    ShortHash(data, 0, 0);
    ShortHash(data, 1, 0);
    ShortHash(data, 0xffffffff, 0);
  }

  lemma SumOfOneByte(data: seq<bv8>)
    requires data == [0x21]
    ensures Hash(data, 0) == 0x72661cf4
  {
    assert TailWord(data) == 0x21;
    assert Scramble(0x21) == 0xac5e5123;
    ShortHash(data, 0, 1);
    assert Avalanche(0xac5e5122) == 0x72661cf4;
  }

  lemma SumOfTwoBytes(data: seq<bv8>)
    requires data == [0x21, 0x43]
    ensures Hash(data, 0) == 0xa0f7b07a
  {
    assert TailWord(data) == 0x4321;
    assert Scramble(0x4321) == 0xec900b60;
    ShortHash(data, 0, 2);
    assert Avalanche(0xec900b62) == 0xa0f7b07a;
  }

  lemma SumOfThreeBytes(data: seq<bv8>)
    requires data == [0x21, 0x43, 0x65]
    ensures Hash(data, 0) == 0x7e4a8634
  {
    assert TailWord(data) == 0x654321;
    assert Scramble(0x654321) == 0x17a6636e;
    ShortHash(data, 0, 3);
    assert Avalanche(0x17a6636d) == 0x7e4a8634;
  }

  /** The sums of nothing with three seeds, and of one, two and three bytes. */
  lemma KnownShortSums()
    ensures Hash([], 0) == 0 && Hash([], 1) == 0x514e28b7 && Hash([], 0xffffffff) == 0x81f16f39
    ensures Hash([0x21], 0) == 0x72661cf4 && Hash([0x21, 0x43], 0) == 0xa0f7b07a && Hash([0x21, 0x43, 0x65], 0) == 0x7e4a8634
  {
    SumOfNothing([]);
    SumOfOneByte([0x21]);
    SumOfTwoBytes([0x21, 0x43]);
    SumOfThreeBytes([0x21, 0x43, 0x65]);
  }

  /** The sums of one block, with and without a seed. */
  lemma KnownBlockSums()
    ensures Hash([0x21, 0x43, 0x65, 0x87], 0) == 0xf55b516b && Hash([0x21, 0x43, 0x65, 0x87], 0x5082edee) == 0x2362f9de
    ensures Hash([0xff, 0xff, 0xff, 0xff], 0) == 0x76293b50
  {
    OneBlockHash([0x21, 0x43, 0x65, 0x87], 0);
    OneBlockHash([0x21, 0x43, 0x65, 0x87], 0x5082edee);
    OneBlockHash([0xff, 0xff, 0xff, 0xff], 0);
  }

  // ----- the program -----

  /** The block loop shared by bmix and Sum32WithSeed. */
  method Bmix(h: bv32, p: seq<bv8>) returns (h1: bv32, tail: seq<bv8>)
    ensures h1 == MixBlocks(h, p) && tail == Rest(p)
  {
    h1 := h;
    var nblocks := |p| / BLOCK;
    for i := 0 to nblocks
      invariant MixBlocks(h, p) == MixBlocks(h1, p[i * BLOCK..]) && Rest(p) == Rest(p[i * BLOCK..])
    {
      ghost var here := p[i * BLOCK..];
      assert here[..BLOCK] == p[i * BLOCK..i * BLOCK + BLOCK] && here[BLOCK..] == p[(i + 1) * BLOCK..];
      h1 := MixWord(h1, Word(p[i * BLOCK..i * BLOCK + BLOCK]));
    }
    tail := p[nblocks * BLOCK..];
  }

  method Sum32WithSeed(data: seq<bv8>, seed: bv32) returns (sum: bv32)
    ensures sum == Hash(data, seed)
  {
    var h1, tail := Bmix(seed, data);
    sum := Finish(h1, tail, |data|);
  }

  class Digest {
    const seed: bv32
    var clen: nat
    var h1: bv32
    /** The pending bytes are a view of the first tailLen bytes of buf. */
    var buf: array<bv8>
    var tailLen: nat

    ghost predicate Valid()
      reads this
    {
      buf.Length == 16 && tailLen < BLOCK
    }

    ghost function Abs(): (s: State)
      requires Valid()
      reads this, buf
      ensures |s.tail| < BLOCK
    {
      State(h1, buf[..tailLen], clen)
    }

    constructor (seed: bv32)
      ensures Valid() && fresh(buf) && Abs() == Start(seed) && this.seed == seed
    {
      this.seed := seed;
      clen, h1, tailLen := 0, seed, 0;
      buf := new bv8[16](_ => 0);
    }

    method Reset()
      requires Valid()
      modifies this
      ensures Valid() && buf == old(buf) && Abs() == Start(seed)
    {
      clen, h1, tailLen := 0, seed, 0;
    }

    /** Go's copy and append on buf: the source is read before anything is written. */
    method WriteAt(at: nat, src: seq<bv8>)
      requires at + |src| <= buf.Length
      modifies buf
      ensures buf[..at] == old(buf[..at]) && buf[at..at + |src|] == src
      ensures buf[..at + |src|] == old(buf[..at]) + src
    {
      forall i | 0 <= i < |src| {
        buf[at + i] := src[i];
      }
      assert buf[..at + |src|] == buf[..at] + buf[at..at + |src|];
    }

    /** Completes the pending block with the start of p, mixes it and returns what is left of p. */
    method MixPending(p: seq<bv8>) returns (left: seq<bv8>)
      requires Valid() && BLOCK - tailLen < |p|
      modifies this`h1, buf
      ensures MixBlocks(old(h1), old(buf[..tailLen]) + p) == MixBlocks(h1, left) && Rest(old(buf[..tailLen]) + p) == Rest(left)
    {
      var nfree := BLOCK - tailLen;
      ghost var was, h := buf[..tailLen], h1;
      WriteAt(tailLen, p[..nfree]);
      var block := buf[..BLOCK];
      left := p[nfree..];
      assert was + p == block + left;
      MixPauses(h, block, left);
      var none;
      h1, none := Bmix(h1, block);
      OneBlock(block, left);
    }

    lemma OneBlock(block: seq<bv8>, left: seq<bv8>)
      requires |block| == BLOCK
      ensures Rest(block) + left == left
    {
      assert Rest(block) == [];
    }

    /** Mixes p and keeps its own copy of the bytes left pending. */
    method MixAndKeep(p: seq<bv8>)
      requires Valid()
      modifies this`h1, this`tailLen, buf
      ensures Valid() && h1 == MixBlocks(old(h1), p) && buf[..tailLen] == Rest(p)
    {
      var tail;
      h1, tail := Bmix(h1, p);
      WriteAt(0, tail);
      tailLen := |tail|;
    }

    method Write(p0: seq<bv8>) returns (n: nat)
      requires Valid()
      modifies this`clen, this`h1, this`tailLen, buf
      ensures Valid() && Abs() == Feed(old(Abs()), p0) && n == |p0|
    {
      n := |p0|;
      var p := p0;
      clen := clen + n;
      if tailLen > 0 {
        // the pending bytes come first
        if BLOCK - tailLen < |p| {
          p := MixPending(p);
        } else {
          WriteAt(tailLen, p);
          p := buf[..tailLen + |p|];
        }
      } else {
        assert buf[..tailLen] + p0 == p0;
      }
      MixAndKeep(p);
    }

    method Sum32() returns (sum: bv32)
      requires Valid()
      ensures sum == Sum(Abs())
    {
      sum := Finish(h1, buf[..tailLen], clen);
    }
  }
}
