/** The free list of the KV-cache block pool (FreeKVCacheBlockQueue in
    vllm/v1/core/kv_cache_utils.py): a doubly linked list threaded through the blocks, between
    a fake head and a fake tail, proved against a plain sequence of blocks. */
module FreeBlockQueue {
  import opened Common

  datatype Result<T> = Ok(value: T) | ValueError | RuntimeError | AssertionError

  class KVCacheBlock {
    const blockId: int
    var prev: KVCacheBlock?
    var next: KVCacheBlock?

    constructor (blockId: int)
      ensures this.blockId == blockId && prev == null && next == null
    {
      this.blockId := blockId;
      prev, next := null, null;
    }
  }

  /** Neighbours in s point to each other. */
  ghost predicate Linked(s: seq<KVCacheBlock>)
    reads s
  {
    forall i :: 0 <= i < |s| - 1 ==> s[i].next == s[i + 1] && s[i + 1].prev == s[i]
  }

  ghost function Without<T>(s: seq<T>, k: nat): seq<T>
    requires k < |s|
  {
    s[..k] + s[k + 1..]
  }

  lemma DistinctWithout<T>(s: seq<T>, k: nat)
    requires k < |s| && Distinct(s)
    ensures Distinct(Without(s, k)) && s[k] !in Without(s, k)
  {
    var t := Without(s, k);
    forall i | 0 <= i < |t| ensures t[i] == s[if i < k then i else i + 1] {}
  }

  /** Lines 341-344: link the blocks after `last`, the end of a linked sequence. */
  method LinkAfter(first: KVCacheBlock?, blocks: seq<KVCacheBlock>, ghost before: seq<KVCacheBlock>)
    returns (last: KVCacheBlock)
    requires before != [] && Linked(before) && first == before[|before| - 1]
    requires Distinct(before) && Distinct(blocks) && forall b :: b in blocks ==> b !in before
    modifies before[|before| - 1], blocks
    ensures Linked(before + blocks) && last == (before + blocks)[|before + blocks| - 1]
    ensures forall k :: 0 <= k < |before + blocks| - 1 ==> (before + blocks)[k] != last
    ensures blocks != [] ==> last == blocks[|blocks| - 1]
  {
    hide Linked, Distinct;
    last := first;
    assert before + blocks[..0] == before;
    for i := 0 to |blocks|
      invariant Linked(before + blocks[..i]) && last == if i == 0 then before[|before| - 1] else blocks[i - 1]
    {
      ghost var done := before + blocks[..i];
      Apart(blocks, i);
      assert blocks[i] in blocks && blocks[i] !in done;
      assert done[|done| - 1] == last;
      LastAlone(before, blocks, i);
      LinkOne(last, blocks[i], done);
      last := blocks[i];
      assert before + blocks[..i + 1] == done + [blocks[i]];
    }
    assert blocks[..|blocks|] == blocks;
    LastAlone(before, blocks, |blocks|);
  }

  /** Lines 342-344: one block goes after the last of a linked sequence. */
  method LinkOne(last: KVCacheBlock, block: KVCacheBlock, ghost done: seq<KVCacheBlock>)
    requires done != [] && Linked(done) && last == done[|done| - 1] && block !in done
    requires forall k :: 0 <= k < |done| - 1 ==> done[k] != last
    modifies last`next, block`prev
    ensures Linked(done + [block])
  {
    block.prev := last;
    last.next := block;
    ghost var more := done + [block];
    forall k | 0 <= k < |done| ensures more[k].next == more[k + 1] && more[k + 1].prev == more[k] {
      if k < |done| - 1 {
        assert more[k] == done[k] && more[k + 1] == done[k + 1];
        assert done[k + 1] in done;
      }
    }
  }

  lemma LastAlone(before: seq<KVCacheBlock>, blocks: seq<KVCacheBlock>, i: nat)
    requires i <= |blocks| && before != []
    requires Distinct(before) && Distinct(blocks) && forall b :: b in blocks ==> b !in before
    ensures var done := before + blocks[..i];
            forall k :: 0 <= k < |done| - 1 ==> done[k] != done[|done| - 1]
  {
    var done := before + blocks[..i];
    forall k | 0 <= k < |done| - 1 ensures done[k] != done[|done| - 1] {
      if k < |before| && i > 0 {
        assert done[k] in before && done[|done| - 1] == blocks[i - 1] && blocks[i - 1] in blocks;
      }
    }
  }

  lemma Apart<T>(s: seq<T>, i: nat)
    requires i < |s| && Distinct(s)
    ensures s[i] !in s[..i]
  {
  }

  /** Lines 188-192: link consecutive blocks; the outer ends are left alone. */
  method LinkBlocks(blocks: seq<KVCacheBlock>)
    requires Distinct(blocks)
    modifies blocks
    ensures Linked(blocks)
  {
    for i := 0 to |blocks|
      invariant forall j :: 0 <= j < i && j + 1 < |blocks| ==> blocks[j].next == blocks[j + 1]
      invariant forall j :: 0 < j < i ==> blocks[j].prev == blocks[j - 1]
    {
      if i > 0 {
        blocks[i].prev := blocks[i - 1];
      }
      if i < |blocks| - 1 {
        blocks[i].next := blocks[i + 1];
      }
    }
  }

  class FreeKVCacheBlockQueue {
    const head: KVCacheBlock
    const tail: KVCacheBlock
    var numFreeBlocks: nat
    ghost var order: seq<KVCacheBlock>   // the free blocks, first to be taken first

    ghost function Chain(): seq<KVCacheBlock>
      reads this
    {
      [head] + order + [tail]
    }

    ghost predicate Valid()
      reads this, Chain(), tail
    {
      && numFreeBlocks == |order|
      && Distinct(Chain())
      && Linked(Chain())
      && tail.next == null
    }

    lemma Positions(k: nat)
      requires k < |order|
      ensures Chain()[k + 1] == order[k] && |Chain()| == |order| + 2
      ensures Chain()[0] == head && Chain()[|order| + 1] == tail
    {
    }

    lemma ChainWithout(k: nat)
      requires k < |order|
      ensures Without(Chain(), k + 1) == [head] + Without(order, k) + [tail]
    {
    }

    /** All blocks are free at first, in the order of the list. */
    constructor (blocks: seq<KVCacheBlock>)
      requires Distinct(blocks)
      modifies blocks
      ensures Valid() && order == blocks && fresh(head) && fresh(tail)
    {
      numFreeBlocks := |blocks|;
      head := new KVCacheBlock(-1);
      tail := new KVCacheBlock(-1);
      order := blocks;
      new;
      LinkBlocks(blocks);
      if numFreeBlocks > 0 {
        head.next := blocks[0];
        blocks[0].prev := head;
        tail.prev := blocks[|blocks| - 1];
        blocks[|blocks| - 1].next := tail;
      } else {
        head.next := tail;
        tail.prev := head;
      }
      ghost var chain := Chain();
      forall i | 0 <= i < |chain| - 1 ensures chain[i].next == chain[i + 1] && chain[i + 1].prev == chain[i] {
        assert i > 0 ==> chain[i] == blocks[i - 1];
        assert i < |blocks| ==> chain[i + 1] == blocks[i];
      }
    }

    /** Take the chain element at k + 1 out of the links. */
    method Unlink(block: KVCacheBlock, ghost k: nat)
      requires Valid() && k < |order| && order[k] == block
      modifies this, Chain()
      ensures Valid() && order == Without(old(order), k)
      ensures block.prev == null && block.next == null
    {
      ghost var chain := Chain();
      Positions(k);
      ChainWithout(k);
      DistinctWithout(chain, k + 1);
      assert chain[k].next == chain[k + 1] && chain[k + 1].prev == chain[k];
      assert chain[k + 1].next == chain[k + 2] && chain[k + 2].prev == chain[k + 1];
      block.prev.next := block.next;
      block.next.prev := block.prev;
      block.prev, block.next := null, null;
      numFreeBlocks := numFreeBlocks - 1;
      order := Without(order, k);
      ghost var rest := Without(chain, k + 1);
      forall i | 0 <= i < |rest| - 1 ensures rest[i].next == rest[i + 1] && rest[i + 1].prev == rest[i] {
        assert rest[i] == chain[if i < k + 1 then i else i + 1];
        assert rest[i + 1] == chain[if i + 1 < k + 1 then i + 1 else i + 2];
      }
    }

    /** remove: a block that is not linked is rejected. */
    method Remove(block: KVCacheBlock) returns (r: Result<()>)
      requires Valid() && (block in order || block.prev == null || block.next == null)
      modifies this, Chain()
      ensures Valid()
      ensures r.Ok? <==> block in old(order)
      ensures r.Ok? ==> exists k :: 0 <= k < |old(order)| && old(order)[k] == block && order == Without(old(order), k)
      ensures r.Ok? ==> block.prev == null && block.next == null
      ensures !r.Ok? ==> r.RuntimeError? && order == old(order)
    {
      if block.prev == null || block.next == null {
        assert block !in order by {
          if block in order {
            var k :| 0 <= k < |order| && order[k] == block;
            LinkedBothSides(k);
          }
        }
        return RuntimeError;
      }
      ghost var k :| 0 <= k < |order| && order[k] == block;
      Unlink(block, k);
      return Ok(());
    }

    lemma LinkedBothSides(k: nat)
      requires Valid() && k < |order|
      ensures order[k].prev != null && order[k].next != null
      ensures order[k].next == Chain()[k + 2] && order[k].prev == Chain()[k]
    {
      Positions(k);
      assert Chain()[k].next == Chain()[k + 1] && Chain()[k + 1].prev == Chain()[k];
      assert Chain()[k + 1].next == Chain()[k + 2];
    }

    lemma HeadNext()
      requires Valid()
      ensures head.next == if order == [] then tail else order[0]
      ensures order != [] ==> order[0] != tail
    {
      var c := Chain();
      assert c[0].next == c[0 + 1];
      assert order != [] ==> c[1] == order[0] && c[1] != c[|order| + 1];
    }

    /** popleft: the first free block, or an error when there is none. */
    method Popleft() returns (r: Result<KVCacheBlock>)
      requires Valid()
      modifies this, Chain()
      ensures Valid()
      ensures r.Ok? <==> old(order) != []
      ensures r.Ok? ==> r.value == old(order)[0] && order == old(order)[1..]
      ensures r.Ok? ==> r.value.prev == null && r.value.next == null
      ensures !r.Ok? ==> r.ValueError? && order == old(order)
    {
      HeadNext();
      if head.next == tail || head.next == null {
        return ValueError;
      }
      LinkedBothSides(0);
      var first := head.next;
      if first.next == null {
        return RuntimeError;
      }
      Unlink(first, 0);
      return Ok(first);
    }

    /** The part of the chain from the i-th free block to the fake tail. */
    ghost function ChainFrom(blocks: seq<KVCacheBlock>, i: nat): seq<KVCacheBlock>
      requires i <= |blocks|
    {
      blocks[i..] + [tail]
    }

    /** popleft_n: the first n free blocks at once; more than there are is an assertion failure. */
    method PopleftN(n: nat) returns (r: Result<seq<KVCacheBlock>>)
      requires Valid()
      modifies this, Chain()
      ensures Valid()
      ensures r.Ok? <==> n <= |old(order)|
      ensures r.Ok? ==> r.value == old(order)[..n] && order == old(order)[n..]
      ensures r.Ok? ==> forall i :: 0 <= i < n ==> r.value[i].prev == null && r.value[i].next == null
      ensures !r.Ok? ==> r.AssertionError? && order == old(order)
    {
      if n == 0 {
        return Ok([]);
      }
      if numFreeBlocks < n {
        return AssertionError;
      }
      ghost var blocks := order;
      DistinctChain();
      FromChain();
      ChainMembers();
      var curr := head.next;
      var ret;
      ret, curr := DetachFirst(blocks, n, curr);
      numFreeBlocks := numFreeBlocks - n;
      order := order[n..];
      FrontOf(blocks, n);
      head.next := curr;
      curr.prev := head;
      Rejoin(blocks, n);
      return Ok(ret);
    }

    /** The loop of lines 268-275: collect n blocks and clear their links. */
    method DetachFirst(ghost blocks: seq<KVCacheBlock>, n: nat, first: KVCacheBlock)
      returns (ret: seq<KVCacheBlock>, curr: KVCacheBlock)
      requires n <= |blocks| && Distinct(blocks) && head !in blocks && tail !in blocks && head != tail
      requires Linked(ChainFrom(blocks, 0)) && first == ChainFrom(blocks, 0)[0] && tail.next == null
      modifies blocks
      ensures ret == blocks[..n]
      ensures Linked(ChainFrom(blocks, n)) && curr == ChainFrom(blocks, n)[0]
      ensures forall i :: 0 <= i < n ==> blocks[i].prev == null && blocks[i].next == null
    {
      ret, curr := [], first;
      for i := 0 to n
        invariant ret == blocks[..i]
        invariant curr == ChainFrom(blocks, i)[0] && Linked(ChainFrom(blocks, i))
        invariant forall j :: 0 <= j < i ==> blocks[j].prev == null && blocks[j].next == null
      {
        FromStep(blocks, i);
        var last := curr;
        ret := ret + [last];
        curr := last.next;
        last.prev := null;
        last.next := null;
        assert blocks[..i + 1] == blocks[..i] + [blocks[i]];
        assert blocks[i] !in ChainFrom(blocks, i + 1) by { Later(blocks, i); }
      }
    }

    lemma FrontOf(blocks: seq<KVCacheBlock>, n: nat)
      requires n <= |blocks|
      ensures ChainFrom(blocks, n)[0] == tail || ChainFrom(blocks, n)[0] in blocks
    {
    }

    lemma Later(blocks: seq<KVCacheBlock>, i: nat)
      requires i < |blocks| && Distinct(blocks) && tail !in blocks
      ensures blocks[i] !in ChainFrom(blocks, i + 1)
    {
      var c := ChainFrom(blocks, i + 1);
      forall j | 0 <= j < |c| ensures c[j] != blocks[i] {
        assert j < |c| - 1 ==> c[j] == blocks[i + 1 + j];
      }
    }

    /** With the fake head joined to the rest, the rest is the new list. */
    lemma Rejoin(blocks: seq<KVCacheBlock>, n: nat)
      requires n <= |blocks| && Distinct(blocks) && head !in blocks && tail !in blocks && head != tail
      requires order == blocks[n..] && numFreeBlocks == |order| && tail.next == null
      requires var rest := ChainFrom(blocks, n);
               head.next == rest[0] && rest[0].prev == head &&
               forall i :: 0 <= i < |rest| - 1 ==> rest[i].next == rest[i + 1] && rest[i + 1].prev == rest[i]
      ensures Valid()
    {
      var c, rest := Chain(), ChainFrom(blocks, n);
      assert c == [head] + rest;
      forall i | 0 <= i < |c| - 1 ensures c[i].next == c[i + 1] && c[i + 1].prev == c[i] {
        assert i > 0 ==> c[i] == rest[i - 1];
        assert c[i + 1] == rest[i];
      }
      forall i, j | 0 <= i < j < |c| ensures c[i] != c[j] {
        assert i > 0 ==> c[i] == blocks[n + i - 1];
        assert j < |c| - 1 ==> c[j] == blocks[n + j - 1];
      }
    }

    lemma ChainMembers()
      ensures head in Chain() && tail in Chain()
      ensures forall k :: 0 <= k < |order| ==> order[k] in Chain()
    {
      forall k | 0 <= k < |order| ensures order[k] in Chain() {
        assert Chain()[k + 1] == order[k];
      }
    }

    lemma DistinctChain()
      requires Valid()
      ensures head != tail && Distinct(order) && head !in order && tail !in order
    {
      var c := Chain();
      assert c[0] == head && c[|order| + 1] == tail;
      forall i | 0 <= i < |order| ensures order[i] != head && order[i] != tail {
        assert c[i + 1] == order[i];
      }
      forall i, j | 0 <= i < j < |order| ensures order[i] != order[j] {
        assert c[i + 1] != c[j + 1];
      }
    }

    /** append: put a block back at the end. */
    method Append(block: KVCacheBlock)
      requires Valid() && block !in Chain()
      modifies this, Chain(), block
      ensures Valid() && order == old(order) + [block]
    {
      AppendN([block]);
    }

    /** append_n: put blocks back at the end, in their order. */
    method AppendN(blocks: seq<KVCacheBlock>)
      requires Valid() && Distinct(blocks) && forall b :: b in blocks ==> b !in Chain()
      modifies this, Chain(), blocks
      ensures Valid() && order == old(order) + blocks
    {
      if blocks == [] {
        assert order + blocks == order;
        return;
      }
      ghost var before, chain := [head] + order, Chain();
      DistinctChain();
      LastOfChain();
      ChainMembers();
      assert chain == before + [tail];
      assert chain[|order|] == before[|order|];
      var last := LinkAfter(tail.prev, blocks, before);
      CloseWith(last, before + blocks);
      numFreeBlocks := numFreeBlocks + |blocks|;
      order := order + blocks;
      assert Chain() == before + blocks + [tail];
      Separate(before, blocks, tail);
    }

    /** Lines 347-348: the fake tail goes after the last block. */
    method CloseWith(last: KVCacheBlock, ghost all: seq<KVCacheBlock>)
      requires all != [] && Linked(all) && last == all[|all| - 1] && tail !in all
      requires forall k :: 0 <= k < |all| - 1 ==> all[k] != last
      modifies last, tail
      ensures Linked(all + [tail]) && tail.next == old(tail.next)
    {
      last.next := tail;
      tail.prev := last;
      ghost var c := all + [tail];
      forall i | 0 <= i < |c| - 1 ensures c[i].next == c[i + 1] && c[i + 1].prev == c[i] {
        assert i < |all| - 1 ==> c[i + 1] == all[i + 1] && all[i + 1] in all;
      }
    }

    lemma Separate(before: seq<KVCacheBlock>, blocks: seq<KVCacheBlock>, last: KVCacheBlock)
      requires Distinct(before) && Distinct(blocks) && last !in before
      requires forall b :: b in blocks ==> b !in before && b != last
      ensures Distinct(before + blocks + [last])
    {
      forall i, j | 0 <= i < j < |before + blocks + [last]|
        ensures (before + blocks + [last])[i] != (before + blocks + [last])[j]
      {
        Between(before, blocks, last, i, j);
      }
    }

    lemma LastOfChain()
      requires Valid()
      ensures tail.prev == ([head] + order)[|order|] && Linked([head] + order)
    {
      var c, before := Chain(), [head] + order;
      forall i | 0 <= i < |before| ensures before[i] == c[i] {}
      assert c[|order|].next == c[|order| + 1] && c[|order| + 1].prev == c[|order|];
      forall i | 0 <= i < |before| - 1 ensures before[i].next == before[i + 1] && before[i + 1].prev == before[i] {
        assert c[i].next == c[i + 1];
      }
    }

    lemma Between(before: seq<KVCacheBlock>, blocks: seq<KVCacheBlock>, last: KVCacheBlock, i: nat, j: nat)
      requires Distinct(before) && Distinct(blocks) && last !in before
      requires forall b :: b in blocks ==> b !in before && b != last
      requires i < j < |before + blocks + [last]|
      ensures (before + blocks + [last])[i] != (before + blocks + [last])[j]
    {
      var c := before + blocks + [last];
      if i < |before| {
        assert c[i] in before;
        assert |before| <= j < |c| - 1 ==> c[j] in blocks;
      } else {
        assert c[i] in blocks;
      }
    }

    /** get_all_free_blocks: walking the links from the head meets exactly the free blocks. */
    method GetAllFreeBlocks() returns (ret: seq<KVCacheBlock>)
      requires Valid()
      ensures ret == order
    {
      ret := [];
      ghost var chain := Chain();
      assert chain[0].next == chain[1];
      var curr := head.next;
      while curr.next != null
        invariant |ret| <= |order| && ret == order[..|ret|]
        invariant curr == chain[|ret| + 1]
        decreases |order| - |ret|
      {
        assert chain[|order| + 1] == tail;
        Positions(|ret|);
        assert chain[|ret| + 1].next == chain[|ret| + 1 + 1];
        ret := ret + [curr];
        curr := curr.next;
      }
      assert |ret| == |order| by {
        if |ret| < |order| {
          LinkedBothSides(|ret|);
        }
      }
    }

    lemma FromChain()
      requires Valid()
      ensures head.next == ChainFrom(order, 0)[0] && Linked(ChainFrom(order, 0))
    {
      var chain, rest := Chain(), ChainFrom(order, 0);
      forall i | 0 <= i < |rest| ensures rest[i] == chain[i + 1] {}
      assert chain[0].next == chain[1];
      forall i | 0 <= i < |rest| - 1 ensures rest[i].next == rest[i + 1] && rest[i + 1].prev == rest[i] {
        assert chain[i + 1].next == chain[i + 1 + 1];
      }
    }

    lemma FromStep(blocks: seq<KVCacheBlock>, i: nat)
      requires i < |blocks| && Linked(ChainFrom(blocks, i))
      ensures ChainFrom(blocks, i)[0] == blocks[i] && blocks[i].next == ChainFrom(blocks, i + 1)[0]
      ensures Linked(ChainFrom(blocks, i + 1))
    {
      var a, b := ChainFrom(blocks, i), ChainFrom(blocks, i + 1);
      forall j | 0 <= j < |b| ensures b[j] == a[j + 1] {}
      assert a[0].next == a[0 + 1];
      forall j | 0 <= j < |b| - 1 ensures b[j].next == b[j + 1] && b[j + 1].prev == b[j] {
        assert a[j + 1].next == a[j + 1 + 1];
      }
    }
  }
}
