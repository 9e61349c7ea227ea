/** The shard of an IP: its 32-bit FNV-1a hash masked with 255 (ratelimiter/token_bucket.go:405-411). */
module Fnv {

  type Ip = seq<bv8>

  const OFFSET_BASIS: bv32 := 2166136261
  const PRIME: bv32 := 16777619
  const SHARD_MASK: bv32 := 255

  function Step(h: bv32, c: bv8): bv32
  {
    (h ^ (c as bv32)) * PRIME
  }

  /** hash/fnv's 32-bit FNV-1a. */
  function Hash(ip: Ip): bv32
  {
    if ip == [] then OFFSET_BASIS else Step(Hash(ip[..|ip| - 1]), ip[|ip| - 1])
  }

  lemma OneByteMore(ip: Ip, c: bv8)
    ensures Hash(ip + [c]) == Step(Hash(ip), c)
  {
    assert (ip + [c])[..|ip|] == ip;
  }

  /** Published values of the 32-bit FNV-1a, of the empty string, "a" and "foobar". */
  lemma KnownHashes()
    ensures Hash([]) == 0x811c9dc5
    ensures Hash([0x61]) == 0xe40c292c
    ensures Hash([0x66, 0x6f, 0x6f, 0x62, 0x61, 0x72]) == 0xbf9cf968
  {
    assert [0x61] == [] + [0x61];
    OneByteMore([], 0x61);
    var f: Ip := [0x66];
    assert f == [] + [0x66];
    OneByteMore([], 0x66);
    OneByteMore(f, 0x6f);
    OneByteMore(f + [0x6f], 0x6f);
    OneByteMore(f + [0x6f] + [0x6f], 0x62);
    OneByteMore(f + [0x6f] + [0x6f] + [0x62], 0x61);
    OneByteMore(f + [0x6f] + [0x6f] + [0x62] + [0x61], 0x72);
    assert f + [0x6f] + [0x6f] + [0x62] + [0x61] + [0x72] == [0x66, 0x6f, 0x6f, 0x62, 0x61, 0x72];
  }

  function ShardBits(ip: Ip): bv8
  {
    (Hash(ip) & SHARD_MASK) as bv8
  }

  function ShardIndex(ip: Ip): (i: nat)
    ensures i < 256
  {
    ShardBits(ip) as nat
  }

  /** The mask picks the remainder modulo the number of shards. */
  lemma ShardIsRemainder(ip: Ip)
    ensures ShardIndex(ip) == (Hash(ip) % 256) as bv8 as nat
  {
  }

  lemma StepLowByte(h: bv32, c: bv8)
    ensures (Step(h, c) & SHARD_MASK) as bv8 == ((h & SHARD_MASK) as bv8 ^ c) * 147
  {
  }

  /** The shard needs no 32-bit hash: it is an 8-bit FNV-1a with the low bytes of the basis and the prime. */
  lemma ShardIsEightBitFnv(ip: Ip, c: bv8)
    ensures ShardIndex([]) == 197
    ensures ShardBits(ip + [c]) == (ShardBits(ip) ^ c) * 147
  {
    assert ShardBits([]) == 197;
    assert (ip + [c])[..|ip|] == ip;
    StepLowByte(Hash(ip), c);
  }

  lemma MultiplierIsInvertible(x: bv8)
    ensures (x * 147) * 155 == x
  {
  }

  lemma XorCancels(x: bv8, c: bv8)
    ensures x ^ (x ^ c) == c
  {
  }

  /** Perfect spread: of two addresses that differ only in the last byte, no two share a shard. */
  lemma LastByteDecidesShard(ip: Ip, c: bv8, d: bv8)
    ensures ShardIndex(ip + [c]) == ShardIndex(ip + [d]) <==> c == d
  {
    var x := ShardBits(ip);
    ShardIsEightBitFnv(ip, c);
    ShardIsEightBitFnv(ip, d);
    MultiplierIsInvertible(x ^ c);
    MultiplierIsInvertible(x ^ d);
    XorCancels(x, c);
    XorCancels(x, d);
    ShardIndexIsFaithful(ip + [c], ip + [d]);
  }

  lemma ShardIndexIsFaithful(a: Ip, b: Ip)
    ensures ShardIndex(a) == ShardIndex(b) ==> ShardBits(a) == ShardBits(b)
  {
    assert ShardIndex(a) as bv8 == ShardBits(a);
    assert ShardIndex(b) as bv8 == ShardBits(b);
  }
}
