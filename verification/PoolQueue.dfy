/** The block pool on top of the linked free list: get_new_blocks, touch and free_blocks of
    vllm/v1/core/block_pool.py with the queue of vllm/v1/core/kv_cache_utils.py.  The list always
    holds the blocks that the pool counts as free, in the same order. */
module PoolQueue {
  import opened Common
  import opened FreeBlockQueue
  import P = BlockPool

  lemma {:induction false} DropWithout(s: seq<P.Block>, k: nat)
    requires Distinct(s) && k < |s|
    ensures P.Drop(s, s[k]) == Without(s, k)
  {
    var rest := s[1..];
    assert Distinct(rest);
    if k == 0 {
      assert s[0] !in rest;
      P.DropAbsent(rest, s[0]);
      assert Without(s, 0) == rest;
    } else {
      DropWithout(rest, k - 1);
      assert rest[k - 1] == s[k] && s[0] != s[k];
      assert Without(s, k) == [s[0]] + Without(rest, k - 1);
    }
  }

  class LinkedPool {
    const blocks: seq<KVCacheBlock>
    const pool: P.BlockPool
    const queue: FreeKVCacheBlockQueue

    ghost predicate Valid()
      reads pool, queue, queue.Chain(), queue.tail
    {
      && pool.Valid() && queue.Valid()
      && |blocks| == |pool.refCnt| && Distinct(blocks) && queue.head !in blocks && queue.tail !in blocks
      && Matches(queue.order, pool.free)
    }

    /** The list holds exactly the free blocks, in order. */
    ghost predicate Matches(order: seq<KVCacheBlock>, free: seq<P.Block>) {
      |order| == |free| && forall i :: 0 <= i < |order| ==> free[i] < |blocks| && order[i] == blocks[free[i]]
    }

    function BlocksOf(ids: seq<P.Block>): (r: seq<KVCacheBlock>)
      requires forall i :: 0 <= i < |ids| ==> ids[i] < |blocks|
      ensures |r| == |ids| && forall i :: 0 <= i < |ids| ==> r[i] == blocks[ids[i]]
    {
      seq(|ids|, i requires 0 <= i < |ids| && ids[i] < |blocks| => blocks[ids[i]])
    }

    constructor (blocks: seq<KVCacheBlock>, enableCaching: bool)
      requires Distinct(blocks) && blocks != []
      modifies blocks
      ensures Valid() && this.blocks == blocks && |pool.free| == |blocks| - 1
      ensures forall i :: 0 <= i < |pool.free| ==> pool.free[i] == i + 1
    {
      this.blocks := blocks;
      pool := new P.BlockPool(|blocks|, enableCaching);
      queue := new FreeKVCacheBlockQueue(blocks[1..]);
    }

    /** get_new_blocks takes from the list exactly the blocks the pool hands out. */
    method GetNewBlocks(k: nat) returns (r: Option<seq<KVCacheBlock>>)
      requires Valid()
      modifies pool, queue, queue.Chain()
      ensures Valid()
      ensures r.Some? <==> k <= |old(pool.free)|
      ensures r.None? ==> pool.Value() == old(pool.Value()) && queue.order == old(queue.order)
      ensures r.Some? ==> P.Taken(old(pool.Value()), k, pool.Value()) && queue.order == old(queue.order)[k..]
      ensures r.Some? ==> r.value == old(queue.order)[..k]
      ensures r.Some? ==> |r.value| == k && forall i :: 0 <= i < k ==> r.value[i] == blocks[old(pool.free)[i]]
    {
      var ids := pool.GetNewBlocks(k);
      if ids.None? {
        return None;
      }
      var taken := queue.PopleftN(k);
      return Some(taken.value);
    }

    lemma AtIndex(order: seq<KVCacheBlock>, free: seq<P.Block>, k: nat, b: P.Block)
      requires Distinct(blocks) && Distinct(free) && Matches(order, free)
      requires k < |order| && b < |blocks| && order[k] == blocks[b]
      ensures free[k] == b && Matches(Without(order, k), P.Drop(free, b))
    {
      DropWithout(free, k);
    }

    lemma FreeFacts(free: seq<P.Block>, refCnt: seq<int>, b: P.Block)
      requires P.QueueMatches(free, refCnt) && b < |refCnt|
      ensures Distinct(free) && P.DropAll(free, [b]) == P.Drop(free, b)
      ensures refCnt[b] == 0 && b != 0 ==> b in free
      ensures !(refCnt[b] == 0 && b != 0) ==> P.Drop(free, b) == free
    {
      P.TouchStep(free, refCnt, b);
      assert [b][..0] == [];
    }

    /** The block leaves the list. */
    method RemoveFree(b: P.Block)
      requires Valid() && b < |blocks| && b in pool.free
      modifies queue, queue.Chain()
      ensures queue.Valid() && Matches(queue.order, P.Drop(pool.free, b))
      ensures forall o :: o in queue.Chain() ==> o in old(queue.Chain())
    {
      hide P.CacheMatches, P.QueueMatches, Linked, P.Drop;
      P.PoolDistinct(pool.Value());
      ghost var order := queue.order;
      ghost var k :| 0 <= k < |pool.free| && pool.free[k] == b;
      assert order[k] == blocks[b];
      var removed := queue.Remove(blocks[b]);
      ghost var i :| 0 <= i < |order| && order[i] == blocks[b] && queue.order == Without(order, i);
      AtIndex(order, pool.free, i, b);
      FewerInChain(queue.head, queue.tail, order, i);
    }

    lemma FewerInChain(head: KVCacheBlock, tail: KVCacheBlock, order: seq<KVCacheBlock>, i: nat)
      requires i < |order|
      ensures forall o :: o in [head] + Without(order, i) + [tail] ==> o in [head] + order + [tail]
    {
    }

    /** touch for one block. */
    method TouchOne(b: P.Block)
      requires Valid() && b < |blocks|
      modifies pool, queue, queue.Chain()
      ensures Valid() && P.Touched(old(pool.Value()), [b], pool.Value())
      ensures forall o :: o in queue.Chain() ==> o in old(queue.Chain())
    {
      hide P.CacheMatches, P.QueueMatches, Linked, Distinct, Matches, P.DropAll, P.Drop, P.Count;
      FreeFacts(pool.free, pool.refCnt, b);
      if pool.refCnt[b] == 0 && b != 0 {
        RemoveFree(b);
      }
      pool.Touch([b]);
    }

    /** touch: the blocks that had no reference leave the list. */
    method Touch(ids: seq<P.Block>)
      requires Valid() && forall i :: 0 <= i < |ids| ==> ids[i] < |blocks|
      modifies pool, queue, queue.Chain()
      ensures Valid() && P.Touched(old(pool.Value()), ids, pool.Value())
    {
      hide P.CacheMatches, P.QueueMatches, Linked, Distinct, Matches, P.DropAll, P.Drop, P.Count;
      P.NoTouch(pool.free);
      for i := 0 to |ids|
        invariant Valid() && forall o :: o in queue.Chain() ==> o in old(queue.Chain())
        invariant P.Touched(old(pool.Value()), ids[..i], pool.Value())
      {
        ghost var before := pool.Value();
        assert forall k :: 0 <= k < |queue.Chain()| ==> queue.Chain()[k] in old(queue.Chain());
        TouchOne(ids[i]);
        TouchedNext(old(pool.Value()), ids, i, before, pool.Value());
      }
      assert ids[..|ids|] == ids;
    }

    lemma TouchedNext(p: P.Pool, ids: seq<P.Block>, i: nat, q: P.Pool, r: P.Pool)
      requires i < |ids| && P.Touched(p, ids[..i], q) && P.Touched(q, [ids[i]], r)
      ensures P.Touched(p, ids[..i + 1], r)
    {
      P.CountStep(ids, i);
      P.DropAllStep(p.free, ids, i);
      assert [ids[i]][..0] == [];
      P.NoTouch(q.free);
      forall b: P.Block ensures P.Count([ids[i]], b) == if ids[i] == b then 1 else 0 {}
    }

    /** free_blocks: the blocks left without a reference join the list.  The condition is the one
        under which the pool stays consistent. */
    method FreeBlocks(ids: seq<P.Block>)
      requires Valid() && (forall i :: 0 <= i < |ids| ==> ids[i] < |blocks|) && P.MayFree(ids, pool.refCnt)
      modifies pool, queue, queue.Chain(), blocks
      ensures Valid() && P.Freed(old(pool.Value()), ids, pool.Value())
    {
      hide P.CacheMatches, P.QueueMatches, Linked, P.Count, P.MayFree, P.Released;
      ghost var free, order := pool.free, queue.order;
      var n := |pool.free|;
      pool.FreeBlocks(ids);
      P.PoolDistinct(pool.Value());
      assert pool.free[..n] == free;
      FreeInRange(pool.free, pool.refCnt);
      var released := BlocksOf(pool.free[n..]);
      Joining(order, free, pool.free[n..]);
      queue.AppendN(released);
    }

    lemma FreeInRange(free: seq<P.Block>, refCnt: seq<int>)
      requires P.QueueMatches(free, refCnt)
      ensures forall i :: 0 <= i < |free| ==> free[i] < |refCnt|
    {
      forall i | 0 <= i < |free| ensures free[i] < |refCnt| {
        assert free[i] in free;
      }
    }

    /** Blocks that are not free are not in the list. */
    lemma Joining(order: seq<KVCacheBlock>, free: seq<P.Block>, more: seq<P.Block>)
      requires Distinct(blocks) && Matches(order, free) && Distinct(free + more)
      requires forall i :: 0 <= i < |more| ==> more[i] < |blocks|
      ensures Distinct(BlocksOf(more)) && forall b :: b in BlocksOf(more) ==> b in blocks && b !in order
      ensures Matches(order + BlocksOf(more), free + more)
    {
      var all := free + more;
      forall i | 0 <= i < |more| ensures BlocksOf(more)[i] !in order && BlocksOf(more)[i] in blocks {
        forall k | 0 <= k < |order| ensures order[k] != blocks[more[i]] {
          assert all[k] != all[|free| + i];
        }
      }
      forall i, j | 0 <= i < j < |more| ensures BlocksOf(more)[i] != BlocksOf(more)[j] {
        assert all[|free| + i] != all[|free| + j];
      }
    }
  }
}
