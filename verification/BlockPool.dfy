/** The KV-cache block pool (BlockPool and BlockHashToBlockMap in vllm/v1/core/block_pool.py).

    A block is named by its id; block 0 is the null block.  The free queue is the sequence that
    FreeBlockQueue refines to a linked list. */
module BlockPool {
  import opened Common

  /** The hash of a block chains the hashes of all blocks before it with its own tokens; here it
      is the token prefix that ends with the block. */
  type Hash = seq<int>

  /** A block hash together with its KV-cache group. */
  datatype Key = Key(hash: Hash, group: int)

  type Block = nat

  // ----- the hash table

  /** One block, or a dictionary of blocks in insertion order. */
  datatype Entry = Single(block: Block) | Many(blocks: seq<Block>)

  type Cache = map<Key, Entry>

  function BlocksOf(e: Entry): seq<Block> {
    match e
    case Single(b) => [b]
    case Many(bs) => bs
  }

  /** All blocks cached under a key, first inserted first. */
  function Under(cache: Cache, key: Key): seq<Block> {
    if key in cache then BlocksOf(cache[key]) else []
  }

  function GetOneBlock(cache: Cache, key: Key): Option<Block> {
    if Under(cache, key) != [] then Some(Under(cache, key)[0]) else None
  }

  function Insert(cache: Cache, key: Key, b: Block): Cache {
    if key !in cache then cache[key := Single(b)]
    else
      match cache[key]
      case Single(a) => cache[key := Many(if a == b then [a] else [a, b])]
      case Many(bs) => cache[key := Many(if b in bs then bs else bs + [b])]
  }

  function Drop(bs: seq<Block>, b: Block): seq<Block> {
    if bs == [] then [] else if bs[0] == b then Drop(bs[1..], b) else [bs[0]] + Drop(bs[1..], b)
  }

  /** pop: the table without the block, and whether it was there. */
  function Pop(cache: Cache, key: Key, b: Block): (Cache, bool) {
    if key !in cache then (cache, false)
    else
      match cache[key]
      case Single(a) => if a == b then (cache - {key}, true) else (cache, false)
      case Many(bs) =>
        var rest := Drop(bs, b);
        (if rest != [] then cache[key := Many(rest)] else cache - {key}, b in bs)
  }

  lemma {:induction false} DropIs(bs: seq<Block>, b: Block)
    ensures forall x :: x in Drop(bs, b) <==> x in bs && x != b
    ensures Distinct(bs) ==> Distinct(Drop(bs, b))
  {
    if bs != [] {
      DropIs(bs[1..], b);
      assert bs == [bs[0]] + bs[1..];
      if Distinct(bs) && bs[0] != b {
        var rest := Drop(bs[1..], b);
        forall i | 0 <= i < |rest| ensures rest[i] != bs[0] {
          assert rest[i] in bs[1..];
        }
      }
    }
  }

  lemma InsertIs(cache: Cache, key: Key, b: Block)
    ensures forall k :: k != key ==> Under(Insert(cache, key, b), k) == Under(cache, k)
    ensures Under(Insert(cache, key, b), key) ==
            if b !in Under(cache, key) then Under(cache, key) + [b] else Under(cache, key)
    ensures forall k :: k in Insert(cache, key, b) <==> k in cache || k == key
  {
  }

  lemma PopIs(cache: Cache, key: Key, b: Block)
    ensures var (c, found) := Pop(cache, key, b);
            && found == (b in Under(cache, key))
            && (forall k :: Under(c, k) == if k == key then Drop(Under(cache, k), b) else Under(cache, k))
            && (forall k :: k in c ==> k in cache && (k == key ==> Under(c, k) != [] || Under(cache, k) == []))
  {
    if key in cache {
      DropIs(BlocksOf(cache[key]), b);
      assert forall x: Block :: Drop([x], b) == if x == b then [] else [x] by {
        forall x: Block ensures Drop([x], b) == if x == b then [] else [x] {
          assert [x][1..] == [];
        }
      }
    }
  }

  // ----- invariants

  ghost predicate HeldExactly(cache: Cache, hashes: seq<Option<Key>>, k: Key, b: Block) {
    b in Under(cache, k) <==> b < |hashes| && hashes[b] == Some(k)
  }

  /** A block has hash k exactly when the table holds it under k. */
  ghost predicate CacheMatches(cache: Cache, hashes: seq<Option<Key>>) {
    && (forall k :: k in cache ==> Under(cache, k) != [])
    && (forall k :: Distinct(Under(cache, k)))
    && (forall k, b :: HeldExactly(cache, hashes, k, b))
  }

  /** The free queue holds exactly the unreferenced blocks, each once, and never block 0. */
  ghost predicate QueueMatches(free: seq<Block>, refCnt: seq<int>) {
    && Distinct(free)
    && (forall b :: b in free ==> 0 < b < |refCnt|)
    && (forall b :: 0 < b < |refCnt| ==> refCnt[b] >= 0 && (b in free <==> refCnt[b] == 0))
  }

  // ----- the pool as a value, and what its operations do to it

  datatype Pool = Pool(refCnt: seq<int>, hashes: seq<Option<Key>>, free: seq<Block>)

  ghost predicate Consistent(p: Pool) {
    && |p.refCnt| == |p.hashes| > 0
    && QueueMatches(p.free, p.refCnt)
    && p.hashes[0].None?
  }

  /** The first k free blocks are handed out, without hash and referenced once. */
  ghost predicate Taken(p: Pool, k: nat, p': Pool) {
    && k <= |p.free| && p'.free == p.free[k..]
    && |p'.refCnt| == |p.refCnt| == |p.hashes| == |p'.hashes|
    && forall b :: 0 <= b < |p.refCnt| ==>
         if b in p.free[..k] then p'.refCnt[b] == 1 && p'.hashes[b].None?
         else p'.refCnt[b] == p.refCnt[b] && p'.hashes[b] == p.hashes[b]
  }

  /** Each block has one more reference per occurrence; touched blocks are not free. */
  ghost predicate Touched(p: Pool, blocks: seq<Block>, p': Pool) {
    && p'.hashes == p.hashes && p'.free == DropAll(p.free, blocks)
    && |p'.refCnt| == |p.refCnt|
    && forall b :: 0 <= b < |p.refCnt| ==> p'.refCnt[b] == p.refCnt[b] + Count(blocks, b)
  }

  /** Each block has one reference less per occurrence; those without any join the queue. */
  ghost predicate Freed(p: Pool, blocks: seq<Block>, p': Pool) {
    && p'.hashes == p.hashes && |p'.refCnt| == |p.refCnt|
    && (forall i :: 0 <= i < |blocks| ==> blocks[i] < |p.refCnt|)
    && (forall b :: 0 <= b < |p.refCnt| ==> p'.refCnt[b] == p.refCnt[b] - Count(blocks, b))
    && p'.free == p.free + Released(blocks, p'.refCnt)
  }

  /** The blocks other than the null block have their keys, all others what they had. */
  ghost predicate Hashed(p: Pool, blocks: seq<Block>, keys: seq<Hash>, group: int, p': Pool) {
    && p'.refCnt == p.refCnt && p'.free == p.free && |p'.hashes| == |p.hashes| && |blocks| <= |keys|
    && (forall i :: 0 <= i < |blocks| && 0 < blocks[i] < |p.hashes| ==>
          p'.hashes[blocks[i]] == Some(Key(keys[i], group)))
    && (forall b :: 0 <= b < |p.hashes| && (b == 0 || b !in blocks) ==> p'.hashes[b] == p.hashes[b])
  }

  /** The blocks have no hash, all others what they had. */
  ghost predicate Unhashed(p: Pool, blocks: seq<Block>, p': Pool) {
    && p'.refCnt == p.refCnt && p'.free == p.free && |p'.hashes| == |p.hashes|
    && forall b :: 0 <= b < |p.hashes| ==> p'.hashes[b] == if b in blocks then None else p.hashes[b]
  }

  lemma TakenKeeps(p: Pool, k: nat, p': Pool)
    requires Consistent(p) && Taken(p, k, p')
    ensures Consistent(p') && forall b :: b in p.free[..k] ==> 0 < b < |p.refCnt| && p.refCnt[b] == 0
    ensures Distinct(p.free[..k])
  {
    SplitFree(p.free, p.refCnt, k);
    TakeFront(p.free, p.refCnt, k, p'.refCnt);
  }

  lemma PoolDistinct(p: Pool)
    requires Consistent(p)
    ensures Distinct(p.free)
  {
  }

  lemma TouchedKeeps(p: Pool, blocks: seq<Block>, p': Pool)
    requires Consistent(p) && Touched(p, blocks, p') && forall i :: 0 <= i < |blocks| ==> blocks[i] < |p.refCnt|
    ensures Consistent(p')
  {
    TouchAll(p.free, p.refCnt, blocks, p'.refCnt);
  }

  lemma FreedKeeps(p: Pool, blocks: seq<Block>, p': Pool)
    requires Consistent(p) && Freed(p, blocks, p')
    ensures Consistent(p') <==> MayFree(blocks, p.refCnt)
  {
    FreeKeepsQueue(p.free, p.refCnt, blocks, p'.refCnt);
  }

  lemma CacheInsert(cache: Cache, hashes: seq<Option<Key>>, key: Key, b: Block)
    requires CacheMatches(cache, hashes) && b < |hashes| && hashes[b].None?
    ensures CacheMatches(Insert(cache, key, b), hashes[b := Some(key)])
  {
    hide Insert, Under;
    InsertIs(cache, key, b);
    var c, h := Insert(cache, key, b), hashes[b := Some(key)];
    assert HeldExactly(cache, hashes, key, b);
    assert Under(c, key) == Under(cache, key) + [b];
    forall k ensures Distinct(Under(c, k)) {
      assert Distinct(Under(cache, k));
    }
    forall k, x ensures HeldExactly(c, h, k, x) {
      assert HeldExactly(cache, hashes, k, x);
    }
  }

  lemma CachePop(cache: Cache, hashes: seq<Option<Key>>, key: Key, b: Block)
    requires CacheMatches(cache, hashes) && b < |hashes| && hashes[b] == Some(key)
    ensures CacheMatches(Pop(cache, key, b).0, hashes[b := None]) && Pop(cache, key, b).1
  {
    hide Pop, Under, Drop;
    UnderIs(cache, key);
    PopIs(cache, key, b);
    var c, h := Pop(cache, key, b).0, hashes[b := None];
    DropIs(Under(cache, key), b);
    assert HeldExactly(cache, hashes, key, b);
    forall k ensures Distinct(Under(c, k)) {
      assert Distinct(Under(cache, k));
    }
    forall k, x ensures HeldExactly(c, h, k, x) {
      assert HeldExactly(cache, hashes, k, x);
    }
  }

  lemma UnderIs(cache: Cache, key: Key)
    ensures key in cache ==> Under(cache, key) == BlocksOf(cache[key])
    ensures key !in cache ==> Under(cache, key) == []
  {
  }

  // ----- counting

  /** The number of blocks above 0 and below n that are in use. */
  function UsedBelow(refCnt: seq<int>, n: nat): nat
    requires n <= |refCnt|
  {
    if n <= 1 then 0 else UsedBelow(refCnt, n - 1) + if refCnt[n - 1] > 0 then 1 else 0
  }

  function FreeBelow(refCnt: seq<int>, n: nat): set<Block>
    requires n <= |refCnt|
  {
    set b: Block | 0 < b < n && refCnt[b] == 0
  }

  lemma {:induction false} CountBelow(refCnt: seq<int>, n: nat)
    requires 0 < n <= |refCnt| && forall b :: 0 < b < n ==> refCnt[b] >= 0
    ensures UsedBelow(refCnt, n) + |FreeBelow(refCnt, n)| == n - 1
  {
    if n == 1 {
      assert FreeBelow(refCnt, n) == {};
    } else {
      CountBelow(refCnt, n - 1);
      assert FreeBelow(refCnt, n) == FreeBelow(refCnt, n - 1) + if refCnt[n - 1] == 0 then {n - 1} else {};
    }
  }

  /** Conservation: every block but the null block is either in use or in the free queue. */
  lemma Conserved(free: seq<Block>, refCnt: seq<int>)
    requires |refCnt| > 0 && QueueMatches(free, refCnt)
    ensures |free| + UsedBelow(refCnt, |refCnt|) == |refCnt| - 1
  {
    CountBelow(refCnt, |refCnt|);
    DistinctSize(free);
    assert FreeBelow(refCnt, |refCnt|) == Elements(free);
  }

  lemma {:induction false} NoneUsed(refCnt: seq<int>, n: nat)
    requires n <= |refCnt| && forall b :: 0 < b < n ==> refCnt[b] >= 0
    ensures UsedBelow(refCnt, n) == 0 <==> forall b :: 0 < b < n ==> refCnt[b] == 0
  {
    if n > 1 {
      NoneUsed(refCnt, n - 1);
    }
  }

  // ----- the pool

  class BlockPool {
    const enableCaching: bool
    var refCnt: seq<int>
    var hashes: seq<Option<Key>>
    var free: seq<Block>
    var cache: Cache

    ghost function Value(): Pool
      reads this
    {
      Pool(refCnt, hashes, free)
    }

    ghost predicate Valid()
      reads this
    {
      && Consistent(Value())
      && CacheMatches(cache, hashes)
      && (!enableCaching ==> forall b :: 0 <= b < |hashes| ==> hashes[b].None?)
    }

    /** Block 0 is taken out of the queue at once and serves as the null block. */
    constructor (numGpuBlocks: nat, enableCaching: bool)
      requires numGpuBlocks > 0
      ensures Valid() && |refCnt| == numGpuBlocks && cache == map[]
      ensures |free| == numGpuBlocks - 1 && forall i :: 0 <= i < |free| ==> free[i] == i + 1
    {
      this.enableCaching := enableCaching;
      refCnt := seq(numGpuBlocks, _ => 0);
      hashes := seq(numGpuBlocks, _ => None);
      free := seq(numGpuBlocks - 1, i => i + 1);
      cache := map[];
      new;
      forall b | 0 < b < numGpuBlocks ensures b in free {
        assert free[b - 1] == b;
      }
    }

    /** _maybe_evict_cached_block; it needs only the hash table to be consistent. */
    method MaybeEvict(b: Block) returns (evicted: bool)
      requires CacheMatches(cache, hashes) && b < |hashes|
      modifies this`hashes, this`cache
      ensures CacheMatches(cache, hashes)
      ensures hashes == old(hashes)[b := None] && evicted == old(hashes[b]).Some?
    {
      hide Pop, CacheMatches;
      if hashes[b].None? {
        return false;
      }
      CachePop(cache, hashes, hashes[b].value, b);
      var (rest, found) := Pop(cache, hashes[b].value, b);
      cache := rest;
      if !found {
        return false;
      }
      hashes := hashes[b := None];
      return true;
    }

    /** get_new_blocks: the first k free blocks, without hash, referenced once.  No block in use
        is ever handed out, and the other blocks keep their place and their hash. */
    method GetNewBlocks(k: nat) returns (r: Option<seq<Block>>)
      requires Valid()
      modifies this
      ensures Valid()
      ensures r.Some? <==> k <= |old(free)|
      ensures r.None? ==> Value() == old(Value()) && cache == old(cache)
      ensures r.Some? ==> r.value == old(free)[..k] && Taken(old(Value()), k, Value())
      ensures r.Some? ==> forall b :: b in r.value ==> 0 < b < |refCnt| && old(refCnt)[b] == 0
    {
      hide CacheMatches, QueueMatches;
      if k > |free| {
        return None;
      }
      var ret := free[..k];
      ghost var taken := free;
      SplitFree(free, refCnt, k);
      free := free[k..];
      for i := 0 to k
        invariant |refCnt| == |hashes| == |old(refCnt)| && free == taken[k..]
        invariant CacheMatches(cache, hashes)
        invariant !enableCaching ==> forall b :: 0 <= b < |hashes| ==> hashes[b].None?
        invariant forall b :: 0 <= b < |refCnt| ==>
                    if b in ret[..i] then refCnt[b] == 1 && hashes[b].None?
                    else refCnt[b] == old(refCnt)[b] && hashes[b] == old(hashes)[b]
      {
        var b := ret[i];
        assert b == taken[i] && b in ret;
        assert ret[..i + 1] == ret[..i] + [b];
        assert b !in ret[..i];
        if enableCaching {
          var evicted := MaybeEvict(b);
        }
        refCnt := refCnt[b := refCnt[b] + 1];
      }
      assert ret[..k] == ret;
      TakenKeeps(old(Value()), k, Value());
      return Some(ret);
    }

    /** get_num_free_blocks, and what it counts. */
    method GetNumFreeBlocks() returns (n: nat)
      requires Valid()
      ensures n == |refCnt| - 1 - UsedBelow(refCnt, |refCnt|)
    {
      Conserved(free, refCnt);
      return |free|;
    }

    /** touch: one more reference for each block; a block that had none leaves the queue. */
    method Touch(blocks: seq<Block>)
      requires Valid() && forall i :: 0 <= i < |blocks| ==> blocks[i] < |refCnt|
      modifies this`refCnt, this`free
      ensures Valid() && Touched(old(Value()), blocks, Value())
    {
      hide CacheMatches, QueueMatches, DropAll, Count;
      NoTouch(old(free));
      for i := 0 to |blocks|
        invariant |refCnt| == |old(refCnt)|
        invariant forall b :: 0 <= b < |refCnt| ==> refCnt[b] == old(refCnt)[b] + Count(blocks[..i], b)
        invariant free == DropAll(old(free), blocks[..i])
      {
        var b := blocks[i];
        TouchAll(old(free), old(refCnt), blocks[..i], refCnt);
        TouchStep(free, refCnt, b);
        CountStep(blocks, i);
        DropAllStep(old(free), blocks, i);
        if refCnt[b] == 0 && b != 0 {
          free := Drop(free, b);
        }
        refCnt := refCnt[b := refCnt[b] + 1];
      }
      assert blocks[..|blocks|] == blocks;
      TouchedKeeps(old(Value()), blocks, Value());
    }

    /** free_blocks: one reference less for each block; those left without any join the queue
        in the given order.  The pool stays consistent exactly when no block is given back more
        often than it is referenced, and none loses two or more references down to its last. */
    method FreeBlocks(blocks: seq<Block>)
      requires Valid() && forall i :: 0 <= i < |blocks| ==> blocks[i] < |refCnt|
      modifies this`refCnt, this`free
      ensures Freed(old(Value()), blocks, Value())
      ensures Valid() <==> MayFree(blocks, old(refCnt))
    {
      hide CacheMatches, QueueMatches, Count;
      NoTouch(free);
      for i := 0 to |blocks|
        invariant |refCnt| == |old(refCnt)| && free == old(free)
        invariant forall b :: 0 <= b < |refCnt| ==> refCnt[b] == old(refCnt)[b] - Count(blocks[..i], b)
      {
        CountStep(blocks, i);
        refCnt := refCnt[blocks[i] := refCnt[blocks[i]] - 1];
      }
      assert blocks[..|blocks|] == blocks;
      var released: seq<Block> := [];
      ghost var after := refCnt;
      for i := 0 to |blocks|
        invariant refCnt == after && free == old(free)
        invariant released == Released(blocks[..i], refCnt)
      {
        assert blocks[..i + 1][..i] == blocks[..i];
        if refCnt[blocks[i]] == 0 && blocks[i] != 0 {
          released := released + [blocks[i]];
        }
      }
      free := free + released;
      FreedKeeps(old(Value()), blocks, Value());
    }

    /** The loop of cache_full_blocks: each block gets its key, the null block is skipped, and a
        block that already has a hash is an assertion failure when it is reached. */
    method CacheBlocks(blocks: seq<Block>, keys: seq<Hash>, group: int) returns (ok: bool, ghost done: nat)
      requires Valid() && enableCaching && |blocks| <= |keys|
      requires forall i :: 0 <= i < |blocks| ==> blocks[i] < |refCnt|
      modifies this`hashes, this`cache
      ensures Valid() && |hashes| == |old(hashes)|
      ensures ok <==> Cacheable(blocks, old(hashes))
      ensures done <= |blocks| && Hashed(old(Value()), blocks[..done], keys, group, Value())
      ensures ok <==> done == |blocks|
      ensures !ok ==> !Cacheable(blocks[..done + 1], old(hashes))
    {
      hide CacheMatches, QueueMatches, Insert, Cacheable;
      NothingCacheable(old(hashes));
      done := |blocks|;
      for i := 0 to |blocks|
        invariant Valid() && |hashes| == |old(hashes)|
        invariant Cacheable(blocks[..i], old(hashes))
        invariant forall k :: 0 <= k < i && blocks[k] != 0 ==> hashes[blocks[k]] == Some(Key(keys[k], group))
        invariant forall b :: 0 <= b < |hashes| && (b == 0 || b !in blocks[..i]) ==> hashes[b] == old(hashes)[b]
      {
        var b := blocks[i];
        CacheableStep(blocks, i, old(hashes));
        assert blocks[..i + 1] == blocks[..i] + [b];
        if b == 0 {
          continue;
        }
        if hashes[b].Some? {
          NotCacheable(blocks, i, old(hashes));
          return false, i;
        }
        var key := Key(keys[i], group);
        CacheInsert(cache, hashes, key, b);
        hashes, cache := hashes[b := Some(key)], Insert(cache, key, b);
      }
      assert blocks[..|blocks|] == blocks;
      return true, |blocks|;
    }

    /** cache_full_blocks: the blocks from cached to full become findable under the request's
        hashes.  Too few hashes are an assertion failure before anything changes. */
    method CacheFullBlocks(blocks: seq<Block>, keys: seq<Hash>, cached: nat, full: nat, group: int)
      returns (ok: bool, ghost done: nat)
      requires Valid() && enableCaching && forall i :: 0 <= i < |blocks| ==> blocks[i] < |refCnt|
      modifies this`hashes, this`cache
      ensures Valid() && |hashes| == |old(hashes)|
      ensures ok <==> cached >= full || (|keys| >= full && Cacheable(Slice(blocks, cached, full), old(hashes)))
      ensures cached < full <= |keys| ==>
                && done <= |Slice(blocks, cached, full)|
                && Hashed(old(Value()), Slice(blocks, cached, full)[..done], keys[cached..], group, Value())
                && (ok <==> done == |Slice(blocks, cached, full)|)
                && (!ok ==> !Cacheable(Slice(blocks, cached, full)[..done + 1], old(hashes)))
      ensures cached >= full || |keys| < full ==> Value() == old(Value()) && cache == old(cache)
    {
      hide Cacheable, Hashed;
      done := 0;
      if cached >= full {
        return true, 0;
      }
      var newFullBlocks := Slice(blocks, cached, full);
      if |keys| < full {
        return false, 0;
      }
      assert forall i :: 0 <= i < |newFullBlocks| ==> newFullBlocks[i] == blocks[cached + i];
      ok, done := CacheBlocks(newFullBlocks, keys[cached..], group);
    }

    /** get_cached_block: for every group the first block cached under the hash, or nothing when
        some group has none. */
    method GetCachedBlock(hash: Hash, groups: seq<int>) returns (r: Option<seq<Block>>)
      requires Valid()
      ensures r.Some? ==> |r.value| == |groups| && forall i :: 0 <= i < |groups| ==>
                r.value[i] < |hashes| && hashes[r.value[i]] == Some(Key(hash, groups[i]))
      ensures r.Some? ==> forall i :: 0 <= i < |groups| ==>
                && r.value[i] in Under(cache, Key(hash, groups[i]))
                && r.value[i] == Under(cache, Key(hash, groups[i]))[0]
      ensures r.None? ==> exists i :: 0 <= i < |groups| && Missing(hashes, Key(hash, groups[i]))
    {
      hide QueueMatches, Under;
      var cached: seq<Block> := [];
      for i := 0 to |groups|
        invariant |cached| == i
        invariant forall k :: 0 <= k < i ==>
                    && cached[k] < |hashes| && hashes[cached[k]] == Some(Key(hash, groups[k]))
                    && cached[k] in Under(cache, Key(hash, groups[k]))
                    && cached[k] == Under(cache, Key(hash, groups[k]))[0]
      {
        var key := Key(hash, groups[i]);
        var found := GetOneBlock(cache, key);
        if found.None? {
          forall b | 0 <= b < |hashes| ensures hashes[b] != Some(key) {
            assert HeldExactly(cache, hashes, key, b);
          }
          return None;
        }
        assert found.value in Under(cache, key);
        assert HeldExactly(cache, hashes, key, found.value);
        cached := cached + [found.value];
      }
      return Some(cached);
    }

    /** find_longest_cache_hit of full attention, for one group: the blocks of the longest chain
        of hashes that are all cached, within the given length. */
    method FindLongestCacheHit(keys: seq<Hash>, maxLength: nat, blockSize: nat, group: int) returns (hits: seq<Block>)
      requires Valid() && blockSize > 0
      ensures |hits| <= |keys| && |hits| <= maxLength / blockSize
      ensures forall i :: 0 <= i < |hits| ==> hits[i] < |hashes| && hashes[hits[i]] == Some(Key(keys[i], group))
      ensures forall i :: 0 <= i < |hits| ==> GetOneBlock(cache, Key(keys[i], group)) == Some(hits[i])
      ensures |hits| < |keys| && |hits| < maxLength / blockSize ==>
                Missing(hashes, Key(keys[|hits|], group))
    {
      hits := [];
      var maxNumBlocks := maxLength / blockSize;
      while |hits| < |keys| && |hits| < maxNumBlocks
        invariant |hits| <= |keys| && |hits| <= maxNumBlocks
        invariant forall i :: 0 <= i < |hits| ==> hits[i] < |hashes| && hashes[hits[i]] == Some(Key(keys[i], group))
        invariant forall i :: 0 <= i < |hits| ==> GetOneBlock(cache, Key(keys[i], group)) == Some(hits[i])
      {
        var cached := GetCachedBlock(keys[|hits|], [group]);
        if cached.None? {
          return;
        }
        hits := hits + cached.value;
      }
    }

    /** evict_blocks, in the order the set is iterated: the blocks lose their hash and nothing
        else changes; an id that is out of range is an assertion failure when it is reached. */
    method EvictBlocks(ids: seq<nat>) returns (ok: bool, ghost done: nat)
      requires Valid()
      modifies this`hashes, this`cache
      ensures Valid() && done <= |ids| && Unhashed(old(Value()), ids[..done], Value())
      ensures ok <==> forall i :: 0 <= i < |ids| ==> ids[i] < |hashes|
      ensures ok ==> done == |ids|
      ensures !ok ==> done < |ids| && ids[done] >= |hashes|
    {
      hide CacheMatches, QueueMatches;
      done := 0;
      for i := 0 to |ids|
        invariant Valid() && done == i && Unhashed(old(Value()), ids[..i], Value())
        invariant forall k :: 0 <= k < i ==> ids[k] < |hashes|
      {
        assert ids[..i + 1] == ids[..i] + [ids[i]];
        if ids[i] >= |hashes| {
          return false, i;
        }
        var evicted := MaybeEvict(ids[i]);
        done := i + 1;
      }
      assert ids[..|ids|] == ids;
      return true, |ids|;
    }

    /** reset_prefix_cache: refused while any block is referenced. */
    method ResetPrefixCache() returns (ok: bool)
      requires Valid()
      modifies this`hashes, this`cache
      ensures Valid() && |hashes| == |old(hashes)|
      ensures ok <==> forall b :: 0 < b < |refCnt| ==> refCnt[b] == 0
      ensures ok ==> cache == map[] && forall b :: 0 <= b < |hashes| ==> hashes[b].None?
      ensures !ok ==> hashes == old(hashes) && cache == old(cache)
    {
      Conserved(free, refCnt);
      NoneUsed(refCnt, |refCnt|);
      var numUsedBlocks := |refCnt| - |free|;
      if numUsedBlocks != 1 {
        return false;
      }
      cache := map[];
      hashes := seq(|hashes|, _ => None);
      return true;
    }
  }

  function Count(s: seq<Block>, b: Block): nat {
    if s == [] then 0 else Count(s[..|s| - 1], b) + if s[|s| - 1] == b then 1 else 0
  }

  function DropAll(s: seq<Block>, bs: seq<Block>): seq<Block> {
    if bs == [] then s else Drop(DropAll(s, bs[..|bs| - 1]), bs[|bs| - 1])
  }

  lemma NoTouch(free: seq<Block>)
    ensures DropAll(free, []) == free && forall b :: Count([], b) == 0
  {
  }

  lemma CountStep(s: seq<Block>, i: nat)
    requires i < |s|
    ensures forall b :: Count(s[..i + 1], b) == Count(s[..i], b) + if s[i] == b then 1 else 0
  {
    assert s[..i + 1][..i] == s[..i];
  }

  lemma DropAllStep(free: seq<Block>, s: seq<Block>, i: nat)
    requires i < |s|
    ensures DropAll(free, s[..i + 1]) == Drop(DropAll(free, s[..i]), s[i])
  {
    assert s[..i + 1][..i] == s[..i];
  }

  lemma {:induction false} DropAbsent(s: seq<Block>, b: Block)
    requires b !in s
    ensures Drop(s, b) == s
  {
    if s != [] {
      assert s == [s[0]] + s[1..];
      DropAbsent(s[1..], b);
    }
  }

  /** One more reference: the block leaves the queue if it was there. */
  lemma TouchStep(free: seq<Block>, refCnt: seq<int>, b: Block)
    requires QueueMatches(free, refCnt) && b < |refCnt|
    ensures QueueMatches(Drop(free, b), refCnt[b := refCnt[b] + 1])
    ensures !(refCnt[b] == 0 && b != 0) ==> Drop(free, b) == free
  {
    DropIs(free, b);
    if !(refCnt[b] == 0 && b != 0) {
      DropAbsent(free, b);
    }
  }

  /** One more reference for each of some blocks. */
  lemma {:induction false} TouchAll(free: seq<Block>, before: seq<int>, blocks: seq<Block>, after: seq<int>)
    requires QueueMatches(free, before) && |after| == |before|
    requires forall i :: 0 <= i < |blocks| ==> blocks[i] < |before|
    requires forall b :: 0 <= b < |before| ==> after[b] == before[b] + Count(blocks, b)
    ensures QueueMatches(DropAll(free, blocks), after)
  {
    hide QueueMatches;
    if blocks == [] {
      assert after == before;
    } else {
      var init, c := blocks[..|blocks| - 1], blocks[|blocks| - 1];
      var mid := after[c := after[c] - 1];
      TouchAll(free, before, init, mid);
      TouchStep(DropAll(free, init), mid, c);
      assert mid[c := mid[c] + 1] == after;
    }
  }

  // ----- giving blocks back

  /** The blocks without a reference left, in the given order, repetitions included. */
  function Released(blocks: seq<Block>, refCnt: seq<int>): seq<Block>
    requires forall i :: 0 <= i < |blocks| ==> blocks[i] < |refCnt|
  {
    if blocks == [] then []
    else
      var b := blocks[|blocks| - 1];
      Released(blocks[..|blocks| - 1], refCnt) + if refCnt[b] == 0 && b != 0 then [b] else []
  }

  /** The released blocks keep the order in which they were given back, which is their order of
      eviction. */
  lemma {:induction false} ReleasedInOrder(first: seq<Block>, later: seq<Block>, refCnt: seq<int>)
    requires forall i :: 0 <= i < |first| ==> first[i] < |refCnt|
    requires forall i :: 0 <= i < |later| ==> later[i] < |refCnt|
    ensures Released(first + later, refCnt) == Released(first, refCnt) + Released(later, refCnt)
    ensures |later| == 1 ==> Released(later, refCnt) == if refCnt[later[0]] == 0 && later[0] != 0 then later else []
  {
    if later == [] {
      assert first + later == first;
    } else {
      var n := |later| - 1;
      assert (first + later)[..|first + later| - 1] == first + later[..n];
      ReleasedInOrder(first, later[..n], refCnt);
      assert |later| == 1 ==> later[..n] == [] && later == [later[0]];
    }
  }

  lemma {:induction false} CountIs(s: seq<Block>, b: Block)
    ensures Count(s, b) == multiset(s)[b]
  {
    if s != [] {
      CountIs(s[..|s| - 1], b);
      assert s == s[..|s| - 1] + [s[|s| - 1]];
    }
  }

  ghost predicate MayFree(blocks: seq<Block>, refCnt: seq<int>) {
    forall b :: 0 < b < |refCnt| && Count(blocks, b) > 0 ==>
      Count(blocks, b) < refCnt[b] || Count(blocks, b) == refCnt[b] == 1
  }

  lemma {:induction false} CountMember(s: seq<Block>, b: Block)
    ensures Count(s, b) > 0 <==> b in s
  {
    if s != [] {
      CountMember(s[..|s| - 1], b);
      assert s == s[..|s| - 1] + [s[|s| - 1]];
    }
  }

  lemma {:induction false} DistinctCount(s: seq<Block>)
    ensures Distinct(s) <==> forall b :: Count(s, b) <= 1
  {
    if s != [] {
      var init, c := s[..|s| - 1], s[|s| - 1];
      DistinctCount(init);
      CountMember(init, c);
      forall b ensures Count(s, b) == Count(init, b) + if c == b then 1 else 0 {}
      if Distinct(s) {
        forall k | 0 <= k < |init| ensures init[k] != c {
          assert s[k] != s[|init|];
        }
        assert Distinct(init) && c !in init && Count(init, c) == 0;
        forall b ensures Count(s, b) <= 1 {
          assert Count(init, b) <= 1;
        }
      } else if Distinct(init) {
        var i, j :| 0 <= i < j < |s| && s[i] == s[j];
        assert j == |init| && init[i] == c;
        assert Count(s, c) > 1;
      } else {
        var b :| Count(init, b) > 1;
        assert Count(s, b) > 1;
      }
    }
  }

  lemma {:induction false} ReleasedCount(blocks: seq<Block>, refCnt: seq<int>, b: Block)
    requires forall i :: 0 <= i < |blocks| ==> blocks[i] < |refCnt|
    ensures Count(Released(blocks, refCnt), b) == if b < |refCnt| && refCnt[b] == 0 && b != 0
              then Count(blocks, b) else 0
  {
    if blocks != [] {
      var init, c := blocks[..|blocks| - 1], blocks[|blocks| - 1];
      ReleasedCount(init, refCnt, b);
      var r := Released(init, refCnt);
      assert (r + [c])[..|r|] == r;
      if !(refCnt[c] == 0 && c != 0) {
        assert Released(blocks, refCnt) == r;
      }
      if b >= |refCnt| {
        assert c != b;
      }
    }
  }

  lemma {:induction false} CountConcat(a: seq<Block>, c: seq<Block>, b: Block)
    ensures Count(a + c, b) == Count(a, b) + Count(c, b)
  {
    if c == [] {
      assert a + c == a;
    } else {
      assert (a + c)[..|a + c| - 1] == a + c[..|c| - 1];
      CountConcat(a, c[..|c| - 1], b);
    }
  }

  /** How often a block stands in the queue after blocks were given back. */
  lemma QueueCount(free: seq<Block>, before: seq<int>, blocks: seq<Block>, after: seq<int>, b: Block)
    requires QueueMatches(free, before) && |after| == |before|
    requires forall i :: 0 <= i < |blocks| ==> blocks[i] < |after|
    ensures Count(free + Released(blocks, after), b) ==
            (if 0 < b < |before| && before[b] == 0 then 1 else 0) +
            (if 0 < b < |after| && after[b] == 0 then Count(blocks, b) else 0)
  {
    CountConcat(free, Released(blocks, after), b);
    ReleasedCount(blocks, after, b);
    DistinctCount(free);
    CountMember(free, b);
  }

  lemma FreeKeepsQueue(free: seq<Block>, before: seq<int>, blocks: seq<Block>, after: seq<int>)
    requires QueueMatches(free, before) && |after| == |before|
    requires forall i :: 0 <= i < |blocks| ==> blocks[i] < |after|
    requires forall b :: 0 <= b < |after| ==> after[b] == before[b] - Count(blocks, b)
    ensures QueueMatches(free + Released(blocks, after), after) <==> MayFree(blocks, before)
  {
    hide Released, Count;
    var queue := free + Released(blocks, after);
    forall b: Block
      ensures Count(queue, b) == (if 0 < b < |before| && before[b] == 0 then 1 else 0) +
                                 (if 0 < b < |after| && after[b] == 0 then Count(blocks, b) else 0)
      ensures b in queue <==> Count(queue, b) > 0
    {
      QueueCount(free, before, blocks, after, b);
      CountMember(queue, b);
    }
    DistinctCount(queue);
    if MayFree(blocks, before) {
      forall b | 0 < b < |after| ensures after[b] >= 0 && (b in queue <==> after[b] == 0) && Count(queue, b) <= 1 {
      }
      forall b: Block ensures Count(queue, b) <= 1 {}
    }
    if QueueMatches(queue, after) {
      forall b | 0 < b < |before| && Count(blocks, b) > 0
        ensures Count(blocks, b) < before[b] || Count(blocks, b) == before[b] == 1
      {
        assert Count(queue, b) <= 1;
      }
    }
  }

  // ----- caching

  /** The non-null blocks are different and have no hash yet. */
  ghost predicate Cacheable(blocks: seq<Block>, hashes: seq<Option<Key>>) {
    forall i :: 0 <= i < |blocks| && 0 < blocks[i] < |hashes| ==> hashes[blocks[i]].None? && blocks[i] !in blocks[..i]
  }

  lemma NothingCacheable(hashes: seq<Option<Key>>)
    ensures Cacheable([], hashes)
  {
  }

  ghost predicate Missing(hashes: seq<Option<Key>>, key: Key) {
    forall b :: 0 <= b < |hashes| ==> hashes[b] != Some(key)
  }

  /** blocks[i:j] of a Python list. */
  function Slice(blocks: seq<Block>, i: nat, j: nat): seq<Block> {
    var to := if j <= |blocks| then j else |blocks|;
    if i <= to then blocks[i..to] else []
  }

  lemma NotCacheable(blocks: seq<Block>, i: nat, hashes: seq<Option<Key>>)
    requires i < |blocks| && !Cacheable(blocks[..i + 1], hashes)
    ensures !Cacheable(blocks, hashes)
  {
    var c := blocks[..i + 1];
    var k :| 0 <= k < |c| && 0 < c[k] < |hashes| && !(hashes[c[k]].None? && c[k] !in c[..k]);
    assert c[..k] == blocks[..k] && c[k] == blocks[k];
  }

  lemma CacheableStep(blocks: seq<Block>, i: nat, hashes: seq<Option<Key>>)
    requires i < |blocks| && Cacheable(blocks[..i], hashes)
    ensures Cacheable(blocks[..i + 1], hashes) <==>
            (0 < blocks[i] < |hashes| ==> hashes[blocks[i]].None? && blocks[i] !in blocks[..i])
  {
    var a, c := blocks[..i], blocks[..i + 1];
    forall k | 0 <= k < i ensures a[k] == c[k] && a[..k] == c[..k] {}
    assert c[i] == blocks[i] && c[..i] == a;
  }

  lemma SplitFree(free: seq<Block>, refCnt: seq<int>, k: nat)
    requires QueueMatches(free, refCnt) && k <= |free|
    ensures forall b :: b in free[..k] ==> 0 < b < |refCnt| && refCnt[b] == 0
    ensures forall b :: b in free[..k] ==> b !in free[k..]
    ensures Distinct(free[..k])
  {
    forall b | b in free[..k] ensures b in free {}
  }

  /** Taking the first k blocks and referencing each once keeps the queue consistent. */
  lemma TakeFront(free: seq<Block>, before: seq<int>, k: nat, after: seq<int>)
    requires QueueMatches(free, before) && k <= |free| && |after| == |before|
    requires forall b :: 0 <= b < |after| ==> after[b] == if b in free[..k] then 1 else before[b]
    ensures QueueMatches(free[k..], after)
  {
    SplitFree(free, before, k);
    forall b | b in free ensures b in free[..k] || b in free[k..] {
      assert free == free[..k] + free[k..];
    }
    forall b | b in free[k..] ensures b in free {}
  }
}
