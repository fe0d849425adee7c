/** Prefix caching and signatures over whole runs.

    The scheduler looks up cached blocks, allocates new ones and puts blocks into the prefix cache
    when it schedules their tokens, before they are computed (vllm/v1/core/kv_cache_manager.py,
    vllm/v1/core/sched/scheduler.py).  A request may therefore reuse blocks that an earlier row of
    the same batch is only about to write.  At the end of a step the worker computes the whole
    batch, counts its experts and sends the signatures of completed prompts
    (vllm/eldr/transport.py). */
module PrefixCaching {
  import opened Common
  import opened BlockPool
  import opened SignatureCounts
  import opened SignatureRuns

  type Gate = seq<int> -> seq<seq<nat>>

  // ----- what a key stands for

  /** The hash of block i of a prompt: all tokens up to the end of the block. */
  ghost function HashAt(bs: Size, prompt: seq<int>, i: nat): Hash {
    var end := StartOf(bs, i + 1);
    if end <= |prompt| then prompt[..end] else prompt
  }

  /** The hashes of the full blocks of a prompt. */
  ghost function BlockHashes(bs: Size, prompt: seq<int>): (h: seq<Hash>)
    ensures |h| == Blk(bs, |prompt|) && forall i :: 0 <= i < |h| ==> h[i] == HashAt(bs, prompt, i)
  {
    seq(Blk(bs, |prompt|), i requires 0 <= i => HashAt(bs, prompt, i))
  }

  lemma HashIs(bs: Size, prompt: seq<int>, i: nat)
    requires i < Blk(bs, |prompt|)
    ensures StartOf(bs, i + 1) <= |prompt| && HashAt(bs, prompt, i) == prompt[..StartOf(bs, i + 1)]
  {
    Starts(bs, i + 1, |prompt|);
  }

  /** The block holds the tokens of the prefix's last block, each computed after all before it. */
  ghost predicate Holds(bs: Size, c: Contents, b: nat, h: Hash) {
    && b < |c| && |c[b]| == bs <= |h|
    && forall o :: 0 <= o < bs ==> c[b][o].prefix == h[..|h| - bs + o + 1]
  }

  /** Every block in the prefix cache holds what its key stands for. */
  ghost predicate Truthful(bs: Size, hashes: seq<Option<Key>>, c: Contents) {
    && |hashes| == |c|
    && forall b :: 0 <= b < |c| && hashes[b].Some? ==> Holds(bs, c, b, hashes[b].value.hash)
  }

  ghost predicate NoHash(hashes: seq<Option<Key>>, x: nat) {
    x < |hashes| && hashes[x].None?
  }

  /** A block that a request has yet to write is not in the prefix cache. */
  ghost predicate Uncached(bs: Size, hashes: seq<Option<Key>>, reqs: Reqs) {
    forall a, x :: a in reqs && Unwritten(bs, reqs[a], x) ==> NoHash(hashes, x)
  }

  // ----- references

  ghost function Users(reqs: Reqs, b: nat): set<nat> {
    set a | a in reqs && b in reqs[a].table
  }

  /** A block is referenced once by each request whose table holds it. */
  ghost predicate References(p: Pool, reqs: Reqs) {
    forall b :: 0 < b < |p.refCnt| ==> p.refCnt[b] == |Users(reqs, b)|
  }

  const MAX_MODEL_LEN := 32767

  ghost predicate TableOk(n: nat, r: Req) {
    && Distinct(r.table) && (forall i :: 0 <= i < |r.table| ==> 0 < r.table[i] < n)
    && |r.prompt| <= MAX_MODEL_LEN
  }

  ghost predicate Tables(n: nat, reqs: Reqs) {
    forall a :: a in reqs ==> TableOk(n, reqs[a])
  }

  /** A moment within a step: `contents` are the tokens of each block once the rows scheduled so
      far are computed. */
  datatype Moment = Moment(pool: Pool, contents: Contents, reqs: Reqs, chunks: seq<Chunk>)

  ghost predicate Sound(bs: Size, gate: Gate, m: Moment) {
    && Consistent(m.pool) && |m.pool.hashes| == |m.contents|
    && Inv(bs, m.contents, m.reqs)
    && References(m.pool, m.reqs) && Tables(|m.contents|, m.reqs)
    && Truthful(bs, m.pool.hashes, m.contents) && Uncached(bs, m.pool.hashes, m.reqs)
    && AllFromGate(m.contents, gate)
  }

  lemma UsersChange(reqs: Reqs, reqs': Reqs, id: nat, b: nat)
    requires forall a :: a != id ==> (a in reqs <==> a in reqs') && (a in reqs ==> reqs[a] == reqs'[a])
    ensures |Users(reqs', b)| ==
            |Users(reqs, b)| + (if id in reqs' && b in reqs'[id].table then 1 else 0)
            - (if id in reqs && b in reqs[id].table then 1 else 0)
  {
    var u, u' := Users(reqs, b), Users(reqs', b);
    forall a ensures a in u - {id} <==> a in u' - {id} {}
    assert u - {id} == u' - {id};
    hide Users;
    SizeWithout(u, id);
    SizeWithout(u', id);
  }

  lemma SizeWithout(u: set<nat>, id: nat)
    ensures |u| == |u - {id}| + if id in u then 1 else 0
  {
    if id !in u {
      assert u - {id} == u;
    }
  }

  lemma CountOnce(blocks: seq<Block>, b: Block)
    requires Distinct(blocks)
    ensures Count(blocks, b) == if b in blocks then 1 else 0
  {
    DistinctCount(blocks);
    CountMember(blocks, b);
  }

  // ----- a request enters

  /** The cached blocks a request may start with: whole blocks of its prompt, never all of it. */
  ghost predicate Found(bs: Size, hashes: seq<Option<Key>>, prompt: seq<int>, hits: seq<Block>) {
    && |hits| <= Blk(bs, if prompt == [] then 0 else |prompt| - 1)
    && |hits| <= |BlockHashes(bs, prompt)|
    && forall i :: 0 <= i < |hits| ==>
         hits[i] < |hashes| && hashes[hits[i]] == Some(Key(BlockHashes(bs, prompt)[i], 0))
  }

  ghost function Entered(bs: Size, prompt: seq<int>, hits: seq<Block>): Req {
    Req(prompt, StartOf(bs, |hits|), hits)
  }

  lemma WholeBlocks(bs: Size, n: nat)
    ensures Blk(bs, StartOf(bs, n)) == n && Off(bs, StartOf(bs, n)) == 0
  {
    QuotientOf(n, 0, bs);
  }

  lemma StartsOrdered(bs: Size, i: nat, j: nat)
    ensures i < j ==> StartOf(bs, i) < StartOf(bs, j)
  {
    MulMono(i + 1, j, bs);
  }

  /** Different blocks of a prompt have different hashes, so they are found in different blocks. */
  lemma HitsDistinct(bs: Size, hashes: seq<Option<Key>>, prompt: seq<int>, hits: seq<Block>)
    requires Found(bs, hashes, prompt, hits)
    ensures Distinct(hits)
  {
    hide StartOf, Blk;
    forall i, j | 0 <= i < j < |hits| ensures hits[i] != hits[j] {
      StartsOrdered(bs, i + 1, j + 1);
      HashIs(bs, prompt, i);
      HashIs(bs, prompt, j);
    }
  }

  lemma HitHolds(bs: Size, c: Contents, prompt: seq<int>, hits: seq<Block>, p: nat)
    requires |hits| <= |BlockHashes(bs, prompt)| && p < StartOf(bs, |hits|) <= |prompt|
    requires forall i :: 0 <= i < |hits| ==> Holds(bs, c, hits[i], BlockHashes(bs, prompt)[i])
    ensures HoldsAt(bs, c, Entered(bs, prompt, hits), p)
  {
    hide StartOf, Blk, Off;
    var i, o := Blk(bs, p), Off(bs, p);
    Starts(bs, i, p);
    StartsOrdered(bs, |hits|, i);
    WholeBlocks(bs, |hits|);
    assert i < |hits|;
    var h := BlockHashes(bs, prompt)[i];
    HashIs(bs, prompt, i);
    assert Holds(bs, c, hits[i], h);
    assert h[..|h| - bs + o + 1] == prompt[..p + 1];
  }

  /** A request that starts on cached blocks finds its prefix in them. */
  lemma EnteredStored(bs: Size, hashes: seq<Option<Key>>, c: Contents, prompt: seq<int>, hits: seq<Block>)
    requires Truthful(bs, hashes, c) && Found(bs, hashes, prompt, hits)
    ensures Stored(bs, c, Entered(bs, prompt, hits))
  {
    hide StartOf, Blk, Off, HoldsAt;
    var n := |hits|;
    WholeBlocks(bs, n);
    Starts(bs, n, if prompt == [] then 0 else |prompt| - 1);
    forall i | 0 <= i < n ensures Holds(bs, c, hits[i], BlockHashes(bs, prompt)[i]) {
      assert hashes[hits[i]].Some?;
    }
    forall p | 0 <= p < StartOf(bs, n) ensures HoldsAt(bs, c, Entered(bs, prompt, hits), p) {
      HitHolds(bs, c, prompt, hits, p);
    }
  }

  lemma EnteredAdmissible(bs: Size, hashes: seq<Option<Key>>, c: Contents, reqs: Reqs, prompt: seq<int>,
                          hits: seq<Block>)
    requires Truthful(bs, hashes, c) && Uncached(bs, hashes, reqs) && Found(bs, hashes, prompt, hits)
    ensures Admissible(bs, c, reqs, Entered(bs, prompt, hits))
  {
    hide StartOf, Blk, Stored, Unwritten;
    EnteredStored(bs, hashes, c, prompt, hits);
    HitsDistinct(bs, hashes, prompt, hits);
    AllWritten(bs, prompt, hits);
    forall a, x: nat | a in reqs && Unwritten(bs, reqs[a], x) ensures x !in hits {
      assert NoHash(hashes, x);
    }
  }

  lemma EnterKeeps(bs: Size, gate: Gate, m: Moment, id: nat, prompt: seq<int>, hits: seq<Block>, pool: Pool)
    requires Sound(bs, gate, m) && id !in m.reqs && |prompt| <= MAX_MODEL_LEN
    requires Found(bs, m.pool.hashes, prompt, hits) && Touched(m.pool, hits, pool)
    ensures Sound(bs, gate, Moment(pool, m.contents, m.reqs[id := Entered(bs, prompt, hits)], m.chunks))
  {
    hide Inv, Admissible, Holds, AllFromGate, QueueMatches, Unwritten, StartOf, DropAll, Count;
    var req := Entered(bs, prompt, hits);
    var reqs' := m.reqs[id := req];
    TouchedKeeps(m.pool, hits, pool);
    EnteredAdmissible(bs, m.pool.hashes, m.contents, m.reqs, prompt, hits);
    AdmitKeeps(bs, m.contents, m.reqs, id, req);
    HitsDistinct(bs, m.pool.hashes, prompt, hits);
    forall b | 0 < b < |pool.refCnt| ensures pool.refCnt[b] == |Users(reqs', b)| {
      CountOnce(hits, b);
      UsersChange(m.reqs, reqs', id, b);
    }
    AllWritten(bs, prompt, hits);
    assert Uncached(bs, pool.hashes, reqs');
    HitsNotNull(bs, m.pool, prompt, hits);
    assert TableOk(|m.contents|, req);
  }

  lemma HitsNotNull(bs: Size, p: Pool, prompt: seq<int>, hits: seq<Block>)
    requires Consistent(p) && Found(bs, p.hashes, prompt, hits)
    ensures forall i :: 0 <= i < |hits| ==> 0 < hits[i] < |p.hashes|
  {
    hide QueueMatches;
  }

  lemma AllWritten(bs: Size, prompt: seq<int>, hits: seq<Block>)
    ensures forall x :: !Unwritten(bs, Entered(bs, prompt, hits), x)
  {
    hide StartOf, Blk;
    WholeBlocks(bs, |hits|);
  }

  // ----- a request gets blocks

  ghost function Grown(r: Req, blocks: seq<Block>): Req {
    r.(table := r.table + blocks)
  }

  /** Blocks handed out by the pool are in no table. */
  lemma NewAllocatable(p: Pool, c: Contents, reqs: Reqs, k: nat, p': Pool)
    requires Consistent(p) && |p.hashes| == |c| && References(p, reqs) && Taken(p, k, p')
    ensures Allocatable(c, reqs, p.free[..k])
  {
    hide QueueMatches;
    TakenKeeps(p, k, p');
    forall i | 0 <= i < k ensures p.free[..k][i] < |c| {
      assert p.free[..k][i] in p.free[..k];
    }
    forall a, i | a in reqs && 0 <= i < k ensures p.free[..k][i] !in reqs[a].table {
      var b := p.free[..k][i];
      assert b in p.free[..k];
      assert |Users(reqs, b)| == 0;
      assert a !in Users(reqs, b);
    }
  }

  lemma AllocateKeeps(bs: Size, gate: Gate, m: Moment, id: nat, k: nat, pool: Pool)
    requires Sound(bs, gate, m) && id in m.reqs && Taken(m.pool, k, pool)
    ensures Sound(bs, gate, Moment(pool, m.contents, m.reqs[id := Grown(m.reqs[id], m.pool.free[..k])], m.chunks))
  {
    hide Inv, Holds, AllFromGate, QueueMatches, Unwritten;
    var r, blocks := m.reqs[id], m.pool.free[..k];
    var r' := Grown(r, blocks);
    var reqs' := m.reqs[id := r'];
    TakenKeeps(m.pool, k, pool);
    NewAllocatable(m.pool, m.contents, m.reqs, k, pool);
    GrowKeeps(bs, m.contents, m.reqs, id, blocks);
    AllocateRefs(m, id, k, pool);
    AllocateUncached(bs, m, id, k, pool);
    assert TableOk(|m.contents|, r);
    GrownTable(|m.contents|, r, blocks);
    assert Truthful(bs, pool.hashes, m.contents);
  }

  lemma AllocateUncached(bs: Size, m: Moment, id: nat, k: nat, pool: Pool)
    requires Consistent(m.pool) && id in m.reqs && Taken(m.pool, k, pool) && Uncached(bs, m.pool.hashes, m.reqs)
    ensures Uncached(bs, pool.hashes, m.reqs[id := Grown(m.reqs[id], m.pool.free[..k])])
  {
    hide QueueMatches, Unwritten;
    TakenKeeps(m.pool, k, pool);
    var r, blocks := m.reqs[id], m.pool.free[..k];
    var reqs' := m.reqs[id := Grown(r, blocks)];
    forall a, x: nat | a in reqs' && Unwritten(bs, reqs'[a], x) ensures NoHash(pool.hashes, x) {
      if a == id {
        UnwrittenGrown(bs, r, blocks, x);
      }
      if x in blocks {
        assert 0 < x < |m.pool.refCnt|;
        assert pool.refCnt[x] == 1;
      } else {
        assert NoHash(m.pool.hashes, x);
        assert pool.refCnt[x] == m.pool.refCnt[x];
      }
    }
  }

  lemma GrownTable(n: nat, r: Req, blocks: seq<Block>)
    requires TableOk(n, r) && Distinct(blocks) && forall i :: 0 <= i < |blocks| ==> blocks[i] !in r.table
    requires forall b :: b in blocks ==> 0 < b < n
    ensures TableOk(n, Grown(r, blocks))
  {
    var t := r.table + blocks;
    forall i | 0 <= i < |t| ensures 0 < t[i] < n {
      if i >= |r.table| {
        assert t[i] == blocks[i - |r.table|] && blocks[i - |r.table|] in blocks;
      }
    }
    forall i, j | 0 <= i < j < |t| ensures t[i] != t[j] {
      if j >= |r.table| {
        assert t[j] == blocks[j - |r.table|];
        assert i < |r.table| ==> r.table[i] in r.table;
      }
    }
  }

  lemma AllocateRefs(m: Moment, id: nat, k: nat, pool: Pool)
    requires id in m.reqs && Consistent(m.pool) && Taken(m.pool, k, pool)
    requires References(m.pool, m.reqs) && Allocatable(m.contents, m.reqs, m.pool.free[..k])
    ensures References(pool, m.reqs[id := Grown(m.reqs[id], m.pool.free[..k])])
  {
    hide QueueMatches;
    TakenKeeps(m.pool, k, pool);
    var r, blocks := m.reqs[id], m.pool.free[..k];
    var reqs' := m.reqs[id := Grown(r, blocks)];
    forall b | 0 < b < |pool.refCnt| ensures pool.refCnt[b] == |Users(reqs', b)| {
      UsersChange(m.reqs, reqs', id, b);
      if b in blocks {
        var i :| 0 <= i < |blocks| && blocks[i] == b;
        assert b !in r.table;
      }
    }
  }

  // ----- tokens are scheduled, and their full blocks cached

  /** The hashes from position i on, as a Python slice. */
  ghost function Tail(keys: seq<Hash>, i: nat): seq<Hash> {
    if i <= |keys| then keys[i..] else []
  }

  /** cache_blocks: the blocks that the scheduled tokens complete get their hashes. */
  ghost predicate Recorded(bs: Size, caching: bool, p: Pool, r: Req, n: nat, p': Pool) {
    var cached, full := Blk(bs, r.computed), Blk(bs, r.computed + n);
    if caching && cached < full
    then Hashed(p, Slice(r.table, cached, full), Tail(BlockHashes(bs, r.prompt), cached), 0, p')
    else p' == p
  }

  /** The contents after a row is computed. */
  ghost function Written(bs: Size, c: Contents, ch: Chunk): Contents {
    if InRange(bs, |c|, SlotsOf(bs, ch.req, |ch.execs|))
    then WriteAll(c, bs, SlotsOf(bs, ch.req, |ch.execs|), ch.execs) else c
  }

  /** Blocks of the tokens up to a position are all in the table. */
  lemma FullInTable(bs: Size, r: Req, execs: seq<Exec>)
    requires Continues(bs, r, execs) && Blk(bs, r.computed) <= |r.table|
    ensures Blk(bs, r.computed) <= Blk(bs, r.computed + |execs|) <= |r.table|
    ensures Blk(bs, r.computed + |execs|) <= Blk(bs, |r.prompt|)
  {
    hide Blk, Off, TopK;
    NotLater(bs, r.computed, r.computed + |execs|);
    NotLater(bs, r.computed + |execs|, |r.prompt|);
    if execs != [] {
      var p := r.computed + |execs| - 1;
      assert Blk(bs, p) < |r.table|;
      NextPosition(bs, p);
    }
  }

  /** The blocks that change their hash, and what it becomes. */
  ghost predicate CachedAs(bs: Size, r: Req, n: nat, x: nat, key: Option<Key>) {
    exists i :: Blk(bs, r.computed) <= i < Blk(bs, r.computed + n) && i < |r.table| && r.table[i] == x &&
      key == Some(Key(HashAt(bs, r.prompt, i), 0))
  }

  lemma RecordedIs(bs: Size, caching: bool, p: Pool, r: Req, n: nat, p': Pool, x: nat)
    requires Recorded(bs, caching, p, r, n, p') && x < |p.hashes|
    requires Blk(bs, r.computed) <= Blk(bs, r.computed + n) <= |r.table|
    requires Blk(bs, r.computed + n) <= Blk(bs, |r.prompt|)
    ensures |p'.hashes| == |p.hashes|
    ensures p'.hashes[x] == p.hashes[x] || CachedAs(bs, r, n, x, p'.hashes[x])
  {
    hide Blk, HashAt;
    var cached, full := Blk(bs, r.computed), Blk(bs, r.computed + n);
    if caching && cached < full {
      var blocks, keys := Slice(r.table, cached, full), Tail(BlockHashes(bs, r.prompt), cached);
      if x != 0 && x in blocks {
        var k :| 0 <= k < |blocks| && blocks[k] == x;
        assert r.table[cached + k] == x;
        assert keys[k] == HashAt(bs, r.prompt, cached + k);
      }
    }
  }

  /** A computed block of a request holds what its hash stands for. */
  lemma FullHolds(bs: Size, c: Contents, r: Req, i: nat)
    requires Stored(bs, c, r) && i < Blk(bs, r.computed)
    ensures i < |r.table| && Holds(bs, c, r.table[i], HashAt(bs, r.prompt, i))
  {
    hide StartOf, Blk, Off;
    var b, h := r.table[i], HashAt(bs, r.prompt, i);
    Starts(bs, i, r.computed);
    Starts(bs, i + 1, r.computed);
    NotLater(bs, r.computed, |r.prompt|);
    HashIs(bs, r.prompt, i);
    forall o | 0 <= o < bs ensures c[b][o].prefix == h[..|h| - bs + o + 1] {
      InBlockAt(bs, i, o);
      var p := StartOf(bs, i) + o;
      assert HoldsAt(bs, c, r, p);
      assert h[..|h| - bs + o + 1] == r.prompt[..p + 1];
    }
  }

  lemma InBlockAt(bs: Size, i: nat, o: nat)
    requires o < bs
    ensures Blk(bs, StartOf(bs, i) + o) == i && Off(bs, StartOf(bs, i) + o) == o
  {
    QuotientOf(i, o, bs);
  }

  lemma RowReady(bs: Size, c: Contents, reqs: Reqs, id: nat, execs: seq<Exec>)
    requires Inv(bs, c, reqs) && id in reqs && Continues(bs, reqs[id], execs)
    ensures RowOk(bs, |c|, Chunk(id, reqs[id], execs))
    ensures Blk(bs, reqs[id].computed) <= |reqs[id].table|
    ensures var ch := Chunk(id, reqs[id], execs);
            && Inv(bs, Written(bs, c, ch), reqs[id := Later(reqs[id], |execs|)])
            && |Written(bs, c, ch)| == |c|
            && forall b :: 0 <= b < |c| && !Unwritten(bs, reqs[id], b) ==> Written(bs, c, ch)[b] == c[b]
  {
    hide Blk, Off, BlocksOk, OwnOnce, Unwritten, HoldsAt, SlotsOf, WriteAll, Writes;
    var r, ch := reqs[id], Chunk(id, reqs[id], execs);
    assert Stored(bs, c, r) && OwnOnce(bs, r);
    PieceInRange(bs, c, reqs, id, execs);
    PieceStep(bs, c, reqs, id, execs, |execs|);
    assert SlotsOf(bs, r, |execs|)[..|execs|] == SlotsOf(bs, r, |execs|) && execs[..|execs|] == execs;
    forall b | 0 <= b < |c| && !Unwritten(bs, r, b) ensures Written(bs, c, ch)[b] == c[b] {
      if Writes(bs, ch, b) {
        WritesOwn(bs, ch, b);
      }
      NotWritten(bs, c, ch, b);
    }
  }

  /** Scheduling tokens and caching the blocks they complete. */
  lemma ComputeKeeps(bs: Size, caching: bool, gate: Gate, m: Moment, id: nat, execs: seq<Exec>, pool: Pool)
    requires Sound(bs, gate, m) && id in m.reqs && Continues(bs, m.reqs[id], execs) && FromGate(execs, gate)
    requires Recorded(bs, caching, m.pool, m.reqs[id], |execs|, pool)
    ensures var ch := Chunk(id, m.reqs[id], execs);
            && RowOk(bs, |m.contents|, ch)
            && Sound(bs, gate, Moment(pool, Written(bs, m.contents, ch), m.reqs[id := Later(m.reqs[id], |execs|)],
                                      m.chunks + [ch]))
  {
    hide Inv, Blk, QueueMatches, Unwritten, WriteAll, SlotsOf, AllFromGate, FromGate, Users, Recorded, Holds, RowOk,
        Continues;
    var r, ch := m.reqs[id], Chunk(id, m.reqs[id], execs);
    var c', reqs' := Written(bs, m.contents, ch), m.reqs[id := Later(r, |execs|)];
    RowReady(bs, m.contents, m.reqs, id, execs);
    FullInTable(bs, r, execs);
    RecordedConsistent(bs, caching, m.pool, r, |execs|, pool);
    GateWritten(bs, gate, m.contents, ch);
    forall b ensures Users(reqs', b) == Users(m.reqs, b) {
      SameUsers(m.reqs, reqs', id, b);
    }
    assert TableOk(|m.contents|, r);
    forall b | 0 <= b < |c'| && pool.hashes[b].Some? ensures Holds(bs, c', b, pool.hashes[b].value.hash) {
      ComputeTruthful(bs, caching, m, id, execs, pool, b);
    }
    forall a, x: nat | a in reqs' && Unwritten(bs, reqs'[a], x) ensures NoHash(pool.hashes, x) {
      ComputeUncached(bs, caching, m, id, execs, pool, a, x);
    }
  }

  lemma RecordedConsistent(bs: Size, caching: bool, p: Pool, r: Req, n: nat, p': Pool)
    requires Consistent(p) && Recorded(bs, caching, p, r, n, p')
    ensures Consistent(p') && p'.refCnt == p.refCnt && |p'.hashes| == |p.hashes|
  {
    hide QueueMatches, Blk;
  }

  lemma SameUsers(reqs: Reqs, reqs': Reqs, id: nat, b: nat)
    requires id in reqs && id in reqs' && reqs' == reqs[id := reqs'[id]] && reqs'[id].table == reqs[id].table
    ensures Users(reqs', b) == Users(reqs, b)
  {
  }

  lemma GateWritten(bs: Size, gate: Gate, c: Contents, ch: Chunk)
    requires AllFromGate(c, gate) && FromGate(ch.execs, gate)
    ensures AllFromGate(Written(bs, c, ch), gate)
  {
    hide AllFromGate, FromGate, WriteAll, SlotsOf;
    if InRange(bs, |c|, SlotsOf(bs, ch.req, |ch.execs|)) {
      WriteFromGate(c, bs, SlotsOf(bs, ch.req, |ch.execs|), ch.execs, gate);
    }
  }

  lemma CachedUnwritten(bs: Size, r: Req, n: nat, x: nat, key: Option<Key>)
    requires CachedAs(bs, r, n, x, key)
    ensures Unwritten(bs, r, x)
  {
    hide Blk, HashAt;
  }

  lemma ComputeTruthful(bs: Size, caching: bool, m: Moment, id: nat, execs: seq<Exec>, pool: Pool, b: nat)
    requires id in m.reqs && Continues(bs, m.reqs[id], execs) && Inv(bs, m.contents, m.reqs)
    requires Truthful(bs, m.pool.hashes, m.contents) && Uncached(bs, m.pool.hashes, m.reqs)
    requires Recorded(bs, caching, m.pool, m.reqs[id], |execs|, pool) && |pool.hashes| == |m.contents|
    requires b < |pool.hashes| && pool.hashes[b].Some?
    ensures Holds(bs, Written(bs, m.contents, Chunk(id, m.reqs[id], execs)), b, pool.hashes[b].value.hash)
  {
    hide Blk, HashAt, Inv, Recorded, Unwritten, Written, Continues, RowOk;
    var r, ch := m.reqs[id], Chunk(id, m.reqs[id], execs);
    RowReady(bs, m.contents, m.reqs, id, execs);
    FullInTable(bs, r, execs);
    RecordedIs(bs, caching, m.pool, r, |execs|, pool, b);
    if pool.hashes[b] == m.pool.hashes[b] {
      assert !NoHash(m.pool.hashes, b);
      assert !Unwritten(bs, r, b);
    } else {
      var c', reqs' := Written(bs, m.contents, ch), m.reqs[id := Later(r, |execs|)];
      StoredOf(bs, c', reqs', id);
      var i :| Blk(bs, r.computed) <= i < Blk(bs, r.computed + |execs|) && i < |r.table| && r.table[i] == b &&
               pool.hashes[b] == Some(Key(HashAt(bs, r.prompt, i), 0));
      FullHolds(bs, c', Later(r, |execs|), i);
    }
  }

  lemma StoredOf(bs: Size, c: Contents, reqs: Reqs, id: nat)
    requires Inv(bs, c, reqs) && id in reqs
    ensures Stored(bs, c, reqs[id]) && OwnOnce(bs, reqs[id])
  {
  }

  lemma ComputeUncached(bs: Size, caching: bool, m: Moment, id: nat, execs: seq<Exec>, pool: Pool, a: nat, x: nat)
    requires id in m.reqs && Continues(bs, m.reqs[id], execs) && Inv(bs, m.contents, m.reqs)
    requires Tables(|m.contents|, m.reqs) && Uncached(bs, m.pool.hashes, m.reqs) && |m.pool.hashes| == |m.contents|
    requires Recorded(bs, caching, m.pool, m.reqs[id], |execs|, pool) && |pool.hashes| == |m.contents|
    requires a in m.reqs
    requires Unwritten(bs, if a == id then Later(m.reqs[id], |execs|) else m.reqs[a], x)
    ensures NoHash(pool.hashes, x)
  {
    hide Blk, HashAt, Recorded, Continues, Stored, OwnOnce, BlocksOk;
    var r := m.reqs[id];
    StoredBlk(bs, m.contents, r);
    FullInTable(bs, r, execs);
    assert Unwritten(bs, m.reqs[a], x) by {
      if a == id {
        LaterUnwritten(bs, r, |execs|, x);
      }
    }
    assert NoHash(m.pool.hashes, x);
    RecordedIs(bs, caching, m.pool, r, |execs|, pool, x);
    if pool.hashes[x] != m.pool.hashes[x] {
      CachedUnwritten(bs, r, |execs|, x, pool.hashes[x]);
      if a == id {
        assert TableOk(|m.contents|, r);
        LaterNotCached(bs, r, |execs|, x, pool.hashes[x]);
      } else {
        UnwrittenInTable(bs, m.reqs[a], x);
      }
    }
  }

  lemma StoredBlk(bs: Size, c: Contents, r: Req)
    requires Stored(bs, c, r)
    ensures Blk(bs, r.computed) <= |r.table|
  {
  }

  lemma LaterUnwritten(bs: Size, r: Req, n: nat, x: nat)
    requires Unwritten(bs, Later(r, n), x)
    ensures Unwritten(bs, r, x)
  {
    hide Blk;
    NotLater(bs, r.computed, r.computed + n);
    var i :| Blk(bs, r.computed + n) <= i < |r.table| && r.table[i] == x;
  }

  /** A block the request has still to write afterwards is none of those just cached. */
  lemma LaterNotCached(bs: Size, r: Req, n: nat, x: nat, key: Option<Key>)
    requires Distinct(r.table) && Unwritten(bs, Later(r, n), x)
    ensures !CachedAs(bs, r, n, x, key)
  {
    hide Blk, HashAt;
    var j :| Blk(bs, r.computed + n) <= j < |r.table| && r.table[j] == x;
  }

  /** The assertion of cache_full_blocks never fails: the blocks to cache are different and have
      no hash yet, and there are enough hashes. */
  lemma NeverCachedTwice(bs: Size, gate: Gate, m: Moment, id: nat, execs: seq<Exec>)
    requires Sound(bs, gate, m) && id in m.reqs && Continues(bs, m.reqs[id], execs)
    ensures var r := m.reqs[id];
            var cached, full := Blk(bs, r.computed), Blk(bs, r.computed + |execs|);
            full <= |BlockHashes(bs, r.prompt)| && Cacheable(Slice(r.table, cached, full), m.pool.hashes)
  {
    hide Blk, QueueMatches, AllFromGate, Truthful, References, Continues;
    var r := m.reqs[id];
    var cached, full := Blk(bs, r.computed), Blk(bs, r.computed + |execs|);
    StoredOf(bs, m.contents, m.reqs, id);
    StoredBlk(bs, m.contents, r);
    FullInTable(bs, r, execs);
    assert TableOk(|m.contents|, r);
    var blocks := Slice(r.table, cached, full);
    forall i | 0 <= i < |blocks| ensures NoHash(m.pool.hashes, blocks[i]) && blocks[i] !in blocks[..i] {
      assert blocks[i] == r.table[cached + i];
      assert Unwritten(bs, r, blocks[i]);
    }
  }

  // ----- a request leaves

  ghost function Backwards(s: seq<Block>): (r: seq<Block>)
    ensures |r| == |s| && forall i :: 0 <= i < |s| ==> r[i] == s[|s| - 1 - i]
  {
    seq(|s|, i requires 0 <= i < |s| => s[|s| - 1 - i])
  }

  lemma BackwardsIs(s: seq<Block>)
    ensures forall b :: b in Backwards(s) <==> b in s
    ensures Distinct(s) ==> Distinct(Backwards(s))
  {
    var r := Backwards(s);
    forall b | b in s ensures b in r {
      var i :| 0 <= i < |s| && s[i] == b;
      assert r[|s| - 1 - i] == b;
    }
  }

  /** The blocks of a request may be given back, and the counts stay right. */
  lemma ReleaseKeeps(bs: Size, gate: Gate, m: Moment, id: nat, pool: Pool)
    requires Sound(bs, gate, m) && id in m.reqs && Freed(m.pool, Backwards(m.reqs[id].table), pool)
    ensures Sound(bs, gate, Moment(pool, m.contents, m.reqs - {id}, m.chunks))
  {
    hide Inv, QueueMatches, Unwritten, AllFromGate, Holds, Users, Count, Released;
    var table := m.reqs[id].table;
    var blocks, reqs' := Backwards(table), m.reqs - {id};
    assert TableOk(|m.contents|, m.reqs[id]);
    BackwardsIs(table);
    DropKeeps(bs, m.contents, m.reqs, id);
    forall b: Block ensures Count(blocks, b) == if b in table then 1 else 0 {
      CountOnce(blocks, b);
    }
    forall b | 0 < b < |pool.refCnt|
      ensures pool.refCnt[b] == |Users(reqs', b)| && (b in table ==> m.pool.refCnt[b] >= 1)
    {
      UsersChange(m.reqs, reqs', id, b);
      UserOf(m.reqs, id, b);
    }
    FreedKeeps(m.pool, blocks, pool);
  }

  lemma UserOf(reqs: Reqs, id: nat, b: nat)
    requires id in reqs
    ensures b in reqs[id].table ==> |Users(reqs, b)| >= 1
  {
    if b in reqs[id].table {
      assert id in Users(reqs, b);
    }
  }

  /** Blocks lose their hashes. */
  lemma ForgetKeeps(bs: Size, gate: Gate, m: Moment, pool: Pool)
    requires Sound(bs, gate, m) && pool.refCnt == m.pool.refCnt && pool.free == m.pool.free
    requires |pool.hashes| == |m.pool.hashes|
    requires forall b :: 0 <= b < |pool.hashes| ==> pool.hashes[b] == m.pool.hashes[b] || pool.hashes[b].None?
    ensures Sound(bs, gate, Moment(pool, m.contents, m.reqs, m.chunks))
  {
    hide Inv, QueueMatches, Unwritten, AllFromGate, Holds, Users;
    forall a, x: nat | a in m.reqs && Unwritten(bs, m.reqs[a], x) ensures NoHash(pool.hashes, x) {
      assert NoHash(m.pool.hashes, x);
    }
  }

  // ----- the operations of a step

  datatype Op =
    | Enter(id: nat, prompt: seq<int>, hits: seq<Block>)
    | Extend(id: nat, execs: seq<Exec>)
    | Release(id: nat)
    | Withdraw(row: nat)
    | Evict(blocks: seq<Block>)
    | Reset

  /** The blocks a request lacks for n more tokens. */
  ghost function Lacking(bs: Size, r: Req, n: nat): nat {
    var needed := BlocksFor(bs, r.computed + n);
    if needed <= |r.table| then 0 else needed - |r.table|
  }

  /** The next tokens of the prompt, with the gate's choices. */
  ghost predicate NextTokens(gate: Gate, r: Req, execs: seq<Exec>) {
    && execs != [] && r.computed + |execs| <= |r.prompt| && FromGate(execs, gate)
    && forall i :: 0 <= i < |execs| ==> execs[i].prefix == r.prompt[..r.computed + i + 1]
  }

  ghost predicate Idle(chunks: seq<Chunk>, id: nat) {
    forall k :: 0 <= k < |chunks| ==> chunks[k].id != id
  }

  /** What is known of a block, from its hash and from the requests other than id that use it, was
      already so before the step. */
  ghost predicate HeldBlock(bs: Size, c: Contents, m: Moment, id: nat, b: nat) {
    && (b < |m.pool.hashes| && m.pool.hashes[b].Some? ==> Holds(bs, c, b, m.pool.hashes[b].value.hash))
    && forall a, i :: a in m.reqs && a != id && 0 <= i < |m.reqs[a].table| && m.reqs[a].table[i] == b ==>
         Holds(bs, c, b, HashAt(bs, m.reqs[a].prompt, i))
  }

  /** So of every block the row writes. */
  ghost predicate HeldBefore(bs: Size, c: Contents, m: Moment, k: nat)
    requires k < |m.chunks|
  {
    forall b :: 0 <= b < |c| && Writes(bs, m.chunks[k], b) ==> HeldBlock(bs, c, m, m.chunks[k].id, b)
  }

  /** The row fills no block. */
  ghost predicate CompletesNone(bs: Size, ch: Chunk) {
    Blk(bs, ch.req.computed) == Blk(bs, ch.req.computed + |ch.execs|)
  }

  /** allocate_slots for n tokens: blocks from the pool, then cache_blocks. */
  ghost predicate Allocated(bs: Size, caching: bool, p: Pool, r: Req, n: nat, p1: Pool, p': Pool) {
    && Taken(p, Lacking(bs, r, n), p1)
    && Recorded(bs, caching, p1, Grown(r, p.free[..Lacking(bs, r, n)]), n, p')
  }

  /** A scheduled request is preempted in the same step: its row leaves the batch and its blocks are
      given back, but their hashes stay. */
  ghost predicate Withdrawn(bs: Size, c: Contents, m: Moment, k: nat, m': Moment)
    requires k < |m.chunks|
  {
    var id := m.chunks[k].id;
    && id in m.reqs && Freed(m.pool, Backwards(m.reqs[id].table), m'.pool)
    && m' == Moment(m'.pool, Computed(bs, c, Without(m.chunks, k)), m.reqs - {id}, Without(m.chunks, k))
  }

  /** One thing the scheduler does within a step that began with contents c.  A request scheduled
      in this step stays until the step is computed, or is preempted under the condition that
      WithdrawKeeps shows to be exact. */
  ghost predicate Act(bs: Size, caching: bool, gate: Gate, c: Contents, m: Moment, op: Op, m': Moment) {
    match op
    case Enter(id, prompt, hits) =>
      && id !in m.reqs && |prompt| <= MAX_MODEL_LEN
      && Found(bs, m.pool.hashes, prompt, hits) && Touched(m.pool, hits, m'.pool)
      && m' == Moment(m'.pool, m.contents, m.reqs[id := Entered(bs, prompt, hits)], m.chunks)
    case Extend(id, execs) =>
      && id in m.reqs && Idle(m.chunks, id) && NextTokens(gate, m.reqs[id], execs)
      && (exists p1 :: Allocated(bs, caching, m.pool, m.reqs[id], |execs|, p1, m'.pool))
      && Lacking(bs, m.reqs[id], |execs|) <= |m.pool.free|
      && var r := Grown(m.reqs[id], m.pool.free[..Lacking(bs, m.reqs[id], |execs|)]);
         var ch := Chunk(id, r, execs);
         m' == Moment(m'.pool, Written(bs, m.contents, ch), m.reqs[id := Later(r, |execs|)], m.chunks + [ch])
    case Release(id) =>
      && id in m.reqs && Idle(m.chunks, id) && Freed(m.pool, Backwards(m.reqs[id].table), m'.pool)
      && m' == Moment(m'.pool, m.contents, m.reqs - {id}, m.chunks)
    case Withdraw(k) => k < |m.chunks| && HeldBefore(bs, c, m, k) && Withdrawn(bs, c, m, k, m')
    case Evict(blocks) =>
      Unhashed(m.pool, blocks, m'.pool) && m' == Moment(m'.pool, m.contents, m.reqs, m.chunks)
    case Reset =>
      && m'.pool.refCnt == m.pool.refCnt && m'.pool.free == m.pool.free && |m'.pool.hashes| == |m.pool.hashes|
      && (forall b :: 0 <= b < |m'.pool.hashes| ==> m'.pool.hashes[b].None?)
      && m' == Moment(m'.pool, m.contents, m.reqs, m.chunks)
  }

  /** The gate chooses existing experts for every layer, each at most once. */
  ghost predicate GateOk(gate: Gate, layers: nat, experts: nat) {
    forall prefix :: ChoiceOk(gate(prefix), layers, experts)
  }

  ghost predicate ChoiceOk(picks: seq<seq<nat>>, layers: nat, experts: nat) {
    && |picks| == layers
    && (forall l, k :: 0 <= l < layers && 0 <= k < |picks[l]| ==> picks[l][k] < experts)
    && (forall l, i, j :: 0 <= l < layers && 0 <= i < j < |picks[l]| ==> picks[l][i] != picks[l][j])
  }

  lemma GateTopK(gate: Gate, layers: nat, experts: nat, xs: seq<Exec>)
    requires GateOk(gate, layers, experts) && FromGate(xs, gate)
    ensures forall i :: 0 <= i < |xs| ==> TopK(xs[i])
    ensures PicksOk(xs, layers, experts)
  {
    forall i | 0 <= i < |xs| ensures ChoiceOk(xs[i].picks, layers, experts) {
      assert xs[i].picks == gate(xs[i].prefix);
    }
  }

  /** With the lacking blocks every position of the new tokens has a block. */
  lemma Covered(bs: Size, r: Req, n: nat, p: nat)
    requires p < r.computed + n
    ensures Blk(bs, p) < |r.table| + Lacking(bs, r, n)
  {
    hide Blk, Off, BlocksFor;
    BlocksNeeded(bs, r.computed + n);
    EarlierPosition(bs, p, r.computed + n);
  }

  lemma GrownContinues(bs: Size, gate: Gate, layers: nat, experts: nat, r: Req, execs: seq<Exec>, blocks: seq<Block>)
    requires GateOk(gate, layers, experts) && NextTokens(gate, r, execs) && |blocks| == Lacking(bs, r, |execs|)
    ensures Continues(bs, Grown(r, blocks), execs)
  {
    hide Blk, TopK, Lacking;
    GateTopK(gate, layers, experts, execs);
    forall p | r.computed <= p < r.computed + |execs| ensures Blk(bs, p) < |r.table + blocks| {
      Covered(bs, r, |execs|, p);
    }
  }

  /** The row that an Extend adds, and that the batch may take it. */
  lemma ExtendKeeps(bs: Size, caching: bool, gate: Gate, layers: nat, experts: nat, c: Contents,
                    m: Moment, op: Op, m': Moment)
    requires GateOk(gate, layers, experts) && Sound(bs, gate, m) && op.Extend? && Act(bs, caching, gate, c, m, op, m')
    ensures Sound(bs, gate, m')
    ensures var reqs := m.reqs[op.id := m'.chunks[|m.chunks|].req];
            Owned(bs, reqs) && RowOk(bs, |m.contents|, m'.chunks[|m.chunks|])
  {
    hide Sound, Inv, Recorded, Taken, NextTokens, Continues, GateOk, Lacking, RowOk, Idle, Written;
    var id, execs := op.id, op.execs;
    var k := Lacking(bs, m.reqs[id], |execs|);
    var p1 :| Allocated(bs, caching, m.pool, m.reqs[id], |execs|, p1, m'.pool);
    var r := Grown(m.reqs[id], m.pool.free[..k]);
    var m1 := Moment(p1, m.contents, m.reqs[id := r], m.chunks);
    AllocateKeeps(bs, gate, m, id, k, p1);
    GrownContinues(bs, gate, layers, experts, m.reqs[id], execs, m.pool.free[..k]);
    NextTokensGate(gate, m.reqs[id], execs);
    ComputeKeeps(bs, caching, gate, m1, id, execs, m'.pool);
    assert m1.reqs[id := Later(r, |execs|)] == m.reqs[id := Later(r, |execs|)];
    SoundOwned(bs, gate, m1);
  }

  lemma NextTokensGate(gate: Gate, r: Req, execs: seq<Exec>)
    requires NextTokens(gate, r, execs)
    ensures FromGate(execs, gate)
  {
  }

  lemma SoundOwned(bs: Size, gate: Gate, m: Moment)
    requires Sound(bs, gate, m)
    ensures Owned(bs, m.reqs)
  {
  }

  /** What is known of the contents a step began with. */
  ghost predicate Before(bs: Size, gate: Gate, c: Contents) {
    BlocksOk(bs, c) && AllFromGate(c, gate)
  }

  lemma ActKeeps(bs: Size, caching: bool, gate: Gate, layers: nat, experts: nat, c: Contents,
                 m: Moment, op: Op, m': Moment)
    requires GateOk(gate, layers, experts) && Sound(bs, gate, m) && Act(bs, caching, gate, c, m, op, m')
    requires Before(bs, gate, c) && InFlight(bs, gate, c, m) && |c| == |m.contents|
    ensures Sound(bs, gate, m') && |m'.contents| == |m.contents|
  {
    hide Sound, Found, Touched, Freed, GateOk, Allocated, NextTokens, Idle, InFlight, Before, HeldBefore, Computed;
    match op {
      case Enter(id, prompt, hits) => EnterKeeps(bs, gate, m, id, prompt, hits, m'.pool);
      case Extend(id, execs) =>
        hide Inv;
        ExtendKeeps(bs, caching, gate, layers, experts, c, m, op, m');
      case Release(id) => ReleaseKeeps(bs, gate, m, id, m'.pool);
      case Withdraw(k) => WithdrawKeeps(bs, gate, c, m, k, m'.pool);
      case Evict(blocks) => ForgetKeeps(bs, gate, m, m'.pool);
      case Reset => ForgetKeeps(bs, gate, m, m'.pool);
    }
  }

  // ----- the rows in flight

  /** The contents once some rows are computed. */
  ghost function Computed(bs: Size, c: Contents, rows: seq<Chunk>): Contents {
    if InRange(bs, |c|, Slots(bs, rows)) then WriteAll(c, bs, Slots(bs, rows), Execs(rows)) else c
  }

  /** The row of a scheduled request is what it has gained since the step began. */
  ghost predicate RowCurrent(reqs: Reqs, ch: Chunk) {
    ch.id in reqs && reqs[ch.id] == Later(ch.req, |ch.execs|)
  }

  /** The rows scheduled since the contents were c: they write no block twice, belong to
      different requests that are all still there, and lead from c to the contents of m. */
  ghost predicate InFlight(bs: Size, gate: Gate, c: Contents, m: Moment) {
    && RowsOk(bs, |c|, m.chunks) && m.contents == Computed(bs, c, m.chunks)
    && (forall k :: 0 <= k < |m.chunks| ==> RowCurrent(m.reqs, m.chunks[k]) && FromGate(m.chunks[k].execs, gate))
    && (forall j, k :: 0 <= j < k < |m.chunks| ==> m.chunks[j].id != m.chunks[k].id)
  }

  /** A new row writes no block of a row scheduled before it. */
  lemma NewRowApart(bs: Size, reqs: Reqs, chunks: seq<Chunk>, ch: Chunk, b: nat, k: nat)
    requires ch.id in reqs && reqs[ch.id] == ch.req && Owned(bs, reqs) && Continues(bs, ch.req, ch.execs)
    requires k < |chunks| && chunks[k].id != ch.id && RowCurrent(reqs, chunks[k])
    requires Continues(bs, chunks[k].req, chunks[k].execs)
    ensures !(Writes(bs, chunks[k], b) && Writes(bs, ch, b))
  {
    hide Continues, Writes, Unwritten, OwnOnce;
    if Writes(bs, chunks[k], b) && Writes(bs, ch, b) {
      WritesOwn(bs, chunks[k], b);
      WritesOwn(bs, ch, b);
    }
  }

  lemma RowsSnoc(bs: Size, n: nat, rows: seq<Chunk>, ch: Chunk)
    requires RowsOk(bs, n, rows) && RowOk(bs, n, ch)
    requires forall k, b :: 0 <= k < |rows| ==> !(Writes(bs, rows[k], b) && Writes(bs, ch, b))
    ensures RowsOk(bs, n, rows + [ch])
  {
    hide RowOk, Writes;
    var r := rows + [ch];
    forall j, k, b | 0 <= j < k < |r| && Writes(bs, r[j], b) ensures !Writes(bs, r[k], b) {
      assert r[j] == rows[j];
    }
  }

  lemma ComputedSnoc(bs: Size, c: Contents, rows: seq<Chunk>, ch: Chunk)
    requires RowsOk(bs, |c|, rows + [ch])
    ensures RowsOk(bs, |c|, rows) && Computed(bs, c, rows + [ch]) == Written(bs, Computed(bs, c, rows), ch)
  {
    hide RowsOk, WriteAll, InRange, Slots, Execs, SlotsOf;
    assert (rows + [ch])[..|rows|] == rows;
    RowsParts(bs, |c|, rows + [ch]);
    RowWritten(bs, c, rows + [ch]);
  }

  lemma ActInFlight(bs: Size, caching: bool, gate: Gate, layers: nat, experts: nat, c: Contents,
                    m: Moment, op: Op, m': Moment)
    requires GateOk(gate, layers, experts) && Sound(bs, gate, m) && Act(bs, caching, gate, c, m, op, m')
    requires Before(bs, gate, c) && InFlight(bs, gate, c, m) && |c| == |m.contents|
    ensures InFlight(bs, gate, c, m')
  {
    hide Sound, Found, Touched, Freed, GateOk, Allocated, Computed, Written, Apart, Lacking, RowOk, FromGate, Before;
    match op {
      case Enter(_, _, _) =>
      case Extend(id, execs) =>
        ExtendKeeps(bs, caching, gate, layers, experts, c, m, op, m');
        ExtendInFlight(bs, gate, c, m, m'.chunks[|m.chunks|]);
        NextTokensGate(gate, m.reqs[id], execs);
      case Release(_) =>
      case Withdraw(k) =>
        hide InFlight;
        WithdrawKeeps(bs, gate, c, m, k, m'.pool);
      case Evict(_) =>
      case Reset =>
    }
  }

  lemma ExtendInFlight(bs: Size, gate: Gate, c: Contents, m: Moment, ch: Chunk)
    requires InFlight(bs, gate, c, m) && |c| == |m.contents| && ch.id in m.reqs && Idle(m.chunks, ch.id)
    requires Owned(bs, m.reqs[ch.id := ch.req]) && RowOk(bs, |c|, ch)
    ensures RowsOk(bs, |c|, m.chunks + [ch])
    ensures Computed(bs, c, m.chunks + [ch]) == Written(bs, m.contents, ch)
  {
    hide Owned, Continues, OwnOnce, Writes, InRange, Apart, Computed, Written, FromGate;
    var reqs := m.reqs[ch.id := ch.req];
    forall k, b: nat | 0 <= k < |m.chunks| ensures !(Writes(bs, m.chunks[k], b) && Writes(bs, ch, b)) {
      assert RowCurrent(m.reqs, m.chunks[k]);
      NewRowApart(bs, reqs, m.chunks, ch, b, k);
    }
    RowsSnoc(bs, |c|, m.chunks, ch);
    ComputedSnoc(bs, c, m.chunks, ch);
  }

  // ----- a step

  ghost predicate Trace(bs: Size, caching: bool, gate: Gate, moments: seq<Moment>, ops: seq<Op>) {
    && |moments| == |ops| + 1
    && forall i :: 0 <= i < |ops| ==> Act(bs, caching, gate, moments[0].contents, moments[i], ops[i], moments[i + 1])
  }

  ghost predicate Start(c: Contents, m: Moment) {
    m.chunks == [] && m.contents == c
  }

  lemma StartInFlight(bs: Size, gate: Gate, c: Contents, m: Moment)
    requires Start(c, m)
    ensures InFlight(bs, gate, c, m)
  {
    NoRows(bs, c);
  }

  lemma StartBefore(bs: Size, gate: Gate, m: Moment)
    requires Sound(bs, gate, m)
    ensures Before(bs, gate, m.contents)
  {
  }

  /** At every moment of a step the pool is consistent, every cached block holds its prefix once
      the rows scheduled so far are computed, and the rows write no block twice. */
  lemma {:induction false} TraceKeeps(bs: Size, caching: bool, gate: Gate, layers: nat, experts: nat, c: Contents,
                                      moments: seq<Moment>, ops: seq<Op>, i: nat)
    requires GateOk(gate, layers, experts) && Trace(bs, caching, gate, moments, ops) && i < |moments|
    requires Sound(bs, gate, moments[0]) && Start(c, moments[0])
    ensures Sound(bs, gate, moments[i]) && InFlight(bs, gate, c, moments[i]) && |moments[i].contents| == |c|
  {
    hide GateOk, Sound, InFlight, Act, Before;
    StartBefore(bs, gate, moments[0]);
    if i == 0 {
      StartInFlight(bs, gate, c, moments[0]);
    } else {
      TraceKeeps(bs, caching, gate, layers, experts, c, moments, ops, i - 1);
      assert Act(bs, caching, gate, moments[0].contents, moments[i - 1], ops[i - 1], moments[i - 1 + 1]);
      ActKeeps(bs, caching, gate, layers, experts, c, moments[i - 1], ops[i - 1], moments[i]);
      ActInFlight(bs, caching, gate, layers, experts, c, moments[i - 1], ops[i - 1], moments[i]);
    }
  }

  /** What a cached block holds at a moment of a step: its prefix, unless a row in flight is
      about to write it; and in any case once the rows in flight are computed. */
  lemma CachedHolds(bs: Size, gate: Gate, c: Contents, m: Moment, b: nat)
    requires Sound(bs, gate, m) && InFlight(bs, gate, c, m) && |c| == |m.contents|
    requires b < |m.pool.hashes| && m.pool.hashes[b].Some?
    ensures var h := m.pool.hashes[b].value.hash;
            && Holds(bs, Computed(bs, c, m.chunks), b, h)
            && (Holds(bs, c, b, h) || exists k :: 0 <= k < |m.chunks| && Writes(bs, m.chunks[k], b))
  {
    hide Inv, AllFromGate, RowsOk, Writes, Uncached, QueueMatches, FromGate;
    assert Holds(bs, m.contents, b, m.pool.hashes[b].value.hash);
    if forall k :: 0 <= k < |m.chunks| ==> !Writes(bs, m.chunks[k], b) {
      BatchUntouched(bs, c, m.chunks, b);
    }
  }

  // ----- whole runs

  /** Between steps: the pool, the tokens in each block, the cells that count them, the requests. */
  datatype State = State(pool: Pool, contents: Contents, cells: Cells, reqs: Reqs)

  /** A step: what the scheduler does, the order in which the worker puts the scheduled rows into
      its batch, and what is sent. */
  datatype Step = Step(moments: seq<Moment>, ops: seq<Op>, perm: seq<nat>, sent: map<nat, seq<seq<int>>>)

  /** The batch of a step. */
  ghost function Batch(step: Step): seq<Chunk>
    requires |step.moments| == |step.ops| + 1
  {
    var rows := step.moments[|step.ops|].chunks;
    if Permutes(step.perm, |rows|) then Reordered(rows, step.perm) else rows
  }

  ghost predicate Next(bs: Size, caching: bool, gate: Gate, layers: nat, experts: nat, s: State, step: Step,
                       s': State) {
    && Trace(bs, caching, gate, step.moments, step.ops)
    && step.moments[0] == Moment(s.pool, s.contents, s.reqs, [])
    && var last := step.moments[|step.ops|];
       && Permutes(step.perm, |last.chunks|)
       && Transported(bs, Batch(step), s.cells, s'.cells, step.sent, layers, experts)
       && s'.pool == last.pool && s'.reqs == last.reqs && s'.contents == Computed(bs, s.contents, Batch(step))
  }

  ghost predicate Good(bs: Size, gate: Gate, layers: nat, experts: nat, s: State) {
    && Sound(bs, gate, Moment(s.pool, s.contents, s.reqs, []))
    && Wrapped(s.cells, s.contents, layers, experts)
  }

  /** The batch of a step, whatever the order of its rows, is one the kernel can take, and
      computes what the scheduler reckoned with. */
  lemma BatchReady(bs: Size, gate: Gate, layers: nat, experts: nat, c: Contents, m: Moment, perm: seq<nat>)
    requires GateOk(gate, layers, experts) && Sound(bs, gate, m) && InFlight(bs, gate, c, m) && |c| == |m.contents|
    requires Permutes(perm, |m.chunks|)
    ensures Ready(bs, Reordered(m.chunks, perm), |c|, layers, experts)
    ensures PrefillOnly(Reordered(m.chunks, perm))
    ensures Computed(bs, c, Reordered(m.chunks, perm)) == m.contents
  {
    hide Computed, Inv, RowOk, Apart, GateOk, AllFromGate, Truthful, Uncached, QueueMatches, References, PicksOk;
    var rows := Reordered(m.chunks, perm);
    ReorderedOk(bs, |c|, m.chunks, perm);
    OrderComputed(bs, c, m.chunks, perm);
    forall k | 0 <= k < |rows| ensures FromGate(rows[k].execs, gate) && RowInTable(|c|, rows[k]) {
      assert rows[k] == m.chunks[perm[k]];
      CurrentRow(|c|, m.reqs, m.chunks[perm[k]]);
    }
    BatchFromGate(gate, rows);
    GateTopK(gate, layers, experts, Execs(rows));
    forall i, j | 0 <= i < j < |rows| ensures rows[i].id != rows[j].id {
      assert perm[i] != perm[j];
    }
    RowsPrefill(bs, |c|, rows);
  }

  ghost predicate RowInTable(n: nat, ch: Chunk) {
    forall i :: 0 <= i < |ch.req.table| ==> ch.req.table[i] < n
  }

  lemma CurrentRow(n: nat, reqs: Reqs, ch: Chunk)
    requires Tables(n, reqs) && RowCurrent(reqs, ch)
    ensures RowInTable(n, ch) && |ch.req.prompt| <= MAX_MODEL_LEN
  {
    assert TableOk(n, reqs[ch.id]);
  }

  lemma OrderComputed(bs: Size, c: Contents, rows: seq<Chunk>, perm: seq<nat>)
    requires RowsOk(bs, |c|, rows) && Permutes(perm, |rows|)
    ensures Computed(bs, c, Reordered(rows, perm)) == Computed(bs, c, rows)
  {
    hide RowsOk, WriteAll, Permutes, InRange, Slots, Execs;
    OrderIrrelevant(bs, c, rows, perm);
  }

  lemma {:induction false} BatchFromGate(gate: Gate, rows: seq<Chunk>)
    requires forall k :: 0 <= k < |rows| ==> FromGate(rows[k].execs, gate)
    ensures FromGate(Execs(rows), gate)
  {
    if rows != [] {
      BatchFromGate(gate, rows[..|rows| - 1]);
      assert FromGate(rows[|rows| - 1].execs, gate);
    }
  }

  lemma RowsPrefill(bs: Size, n: nat, rows: seq<Chunk>)
    requires RowsOk(bs, n, rows)
    ensures PrefillOnly(rows)
  {
    hide Apart, InRange, OwnOnce;
    forall k | 0 <= k < |rows| ensures rows[k].req.computed + |rows[k].execs| <= |rows[k].req.prompt| {
      assert RowOk(bs, n, rows[k]);
    }
  }

  /** The moment at which the batch of a step is complete. */
  lemma LastMoment(bs: Size, caching: bool, gate: Gate, layers: nat, experts: nat, s: State, step: Step, s': State)
    requires GateOk(gate, layers, experts) && Good(bs, gate, layers, experts, s)
    requires Next(bs, caching, gate, layers, experts, s, step, s')
    ensures var last := step.moments[|step.ops|];
            && Sound(bs, gate, last) && InFlight(bs, gate, s.contents, last) && |last.contents| == |s.contents|
            && Ready(bs, Batch(step), |s.contents|, layers, experts) && PrefillOnly(Batch(step))
            && s'.contents == last.contents
  {
    hide GateOk, Sound, InFlight, Transported, Wrapped, Ready, Permutes, Computed, Act, PrefillOnly;
    TraceKeeps(bs, caching, gate, layers, experts, s.contents, step.moments, step.ops, |step.ops|);
    BatchReady(bs, gate, layers, experts, s.contents, step.moments[|step.ops|], step.perm);
  }

  lemma StepKeeps(bs: Size, caching: bool, gate: Gate, layers: nat, experts: nat, s: State, step: Step, s': State)
    requires GateOk(gate, layers, experts) && Good(bs, gate, layers, experts, s)
    requires Next(bs, caching, gate, layers, experts, s, step, s')
    ensures Good(bs, gate, layers, experts, s')
  {
    hide GateOk, Sound, InFlight, Wrapped, Permutes, Act, RowsOk, Slots, Execs, WriteAll, Counted, PicksOk, PrefillOnly;
    LastMoment(bs, caching, gate, layers, experts, s, step, s');
    var rows := Batch(step);
    RowsInRange(bs, |s.contents|, rows);
    TidyBatch(bs, |s.contents|, rows);
    CountedIsWritten(s.cells, s'.cells, s.contents, bs, Slots(bs, rows), Execs(rows), layers, experts);
    SoundBetween(bs, gate, step.moments[|step.ops|]);
  }

  lemma SoundBetween(bs: Size, gate: Gate, m: Moment)
    requires Sound(bs, gate, m)
    ensures Sound(bs, gate, Moment(m.pool, m.contents, m.reqs, []))
  {
  }

  /** At first nothing is cached, referenced or counted. */
  ghost predicate Initial(layers: nat, experts: nat, s: State) {
    && Consistent(s.pool) && |s.pool.hashes| == |s.contents|
    && (forall b :: 0 <= b < |s.contents| ==> s.contents[b] == [] && s.pool.hashes[b].None? && s.pool.refCnt[b] == 0)
    && s.reqs == map[]
    && Shaped(s.cells, |s.contents|, layers, experts)
    && (forall b, l, e :: 0 <= b < |s.contents| && 0 <= l < layers && 0 <= e < experts ==> s.cells[b][l][e] == 0)
  }

  lemma InitialGood(bs: Size, gate: Gate, layers: nat, experts: nat, s: State)
    requires Initial(layers, experts, s)
    ensures Good(bs, gate, layers, experts, s)
  {
    hide QueueMatches;
    forall b ensures Users(s.reqs, b) == {} {}
    NoUses();
    forall b, l | 0 <= b < |s.contents| && 0 <= l < layers ensures RowIs(s.cells[b][l], s.contents[b], l, experts) {
      assert s.contents[b] == [];
    }
  }

  ghost predicate Run(bs: Size, caching: bool, gate: Gate, layers: nat, experts: nat, states: seq<State>,
                      steps: seq<Step>) {
    && |states| == |steps| + 1 && Initial(layers, experts, states[0])
    && forall i :: 0 <= i < |steps| ==> Next(bs, caching, gate, layers, experts, states[i], steps[i], states[i + 1])
  }

  /** Over every run, after every step: the pool is consistent, references are exact, every cached
      block holds its prefix, every request's computed tokens are in its blocks, and the cells
      count the tokens of their blocks. */
  lemma {:induction false} RunKeeps(bs: Size, caching: bool, gate: Gate, layers: nat, experts: nat,
                                    states: seq<State>, steps: seq<Step>, i: nat)
    requires GateOk(gate, layers, experts) && Run(bs, caching, gate, layers, experts, states, steps) && i < |states|
    ensures Good(bs, gate, layers, experts, states[i])
  {
    hide GateOk, Good, Next, Initial;
    if i == 0 {
      InitialGood(bs, gate, layers, experts, states[0]);
    } else {
      RunKeeps(bs, caching, gate, layers, experts, states, steps, i - 1);
      assert Next(bs, caching, gate, layers, experts, states[i - 1], steps[i - 1], states[i - 1 + 1]);
      StepKeeps(bs, caching, gate, layers, experts, states[i - 1], steps[i - 1], states[i]);
    }
  }

  /** What a step sends for a request is the exact count of the gate's choices for its prompt. */
  lemma StepExact(bs: Size, caching: bool, gate: Gate, layers: nat, experts: nat, s: State, step: Step, s': State,
                  id: nat)
    requires bs < 128 && GateOk(gate, layers, experts) && Good(bs, gate, layers, experts, s)
    requires Next(bs, caching, gate, layers, experts, s, step, s') && id in step.sent
    ensures id in s'.reqs && s'.reqs[id].computed == |s'.reqs[id].prompt|
    ensures |step.sent[id]| == layers
    ensures forall l :: 0 <= l < layers ==>
              ExactRow(GateHistory(s'.reqs[id].prompt, gate), l, step.sent[id][l], experts)
  {
    hide GateOk, Sound, InFlight, Wrapped, Permutes, Act, RowsOk, Slots, Execs, Counted, PicksOk, PrefillOnly, ExactRow;
    hide Computed, RowSent, Reordered, Stored;
    LastMoment(bs, caching, gate, layers, experts, s, step, s');
    StepKeeps(bs, caching, gate, layers, experts, s, step, s');
    var rows, last := Batch(step), step.moments[|step.ops|];
    var k :| 0 <= k < |rows| && rows[k].id == id;
    RowOf(bs, gate, s.contents, step, k);
    var r := s'.reqs[id];
    SoundStored(bs, gate, Moment(s'.pool, s'.contents, s'.reqs, []), id);
    HoldsFrom(bs, s'.contents, r);
    HistoryIsGate(bs, s'.contents, r, gate);
    forall l | 0 <= l < layers ensures ExactRow(GateHistory(r.prompt, gate), l, step.sent[id][l], experts) {
      SameSent(bs, s'.cells, rows[k].req, r, l, step.sent[id][l], experts);
      SentExact(bs, s'.cells, s'.contents, r, l, step.sent[id][l], layers, experts);
    }
  }

  /** A row of the batch belongs to a request that is still there, as far computed as the row. */
  lemma RowOf(bs: Size, gate: Gate, c: Contents, step: Step, k: nat)
    requires |step.moments| == |step.ops| + 1 && InFlight(bs, gate, c, step.moments[|step.ops|])
    requires k < |Batch(step)|
    ensures RowCurrent(step.moments[|step.ops|].reqs, Batch(step)[k])
  {
    hide RowsOk, Computed, FromGate;
    var chunks := step.moments[|step.ops|].chunks;
    if Permutes(step.perm, |chunks|) {
      assert Batch(step)[k] == chunks[step.perm[k]];
    }
  }

  lemma SameSent(bs: Size, cells: Cells, r: Req, r': Req, l: nat, row: seq<int>, experts: nat)
    requires RowSent(bs, cells, r, l, row, experts) && r'.table == r.table && r'.prompt == r.prompt
    ensures RowSent(bs, cells, r', l, row, experts)
  {
  }

  lemma SoundStored(bs: Size, gate: Gate, m: Moment, id: nat)
    requires Sound(bs, gate, m) && id in m.reqs
    ensures Stored(bs, m.contents, m.reqs[id]) && BlocksOk(bs, m.contents) && AllFromGate(m.contents, gate)
    ensures |m.reqs[id].prompt| <= MAX_MODEL_LEN
  {
    hide Stored, BlocksOk, AllFromGate, Truthful;
    assert TableOk(|m.contents|, m.reqs[id]);
  }

  lemma HoldsFrom(bs: Size, c: Contents, r: Req)
    requires Stored(bs, c, r)
    ensures HoldsAll(bs, c, r)
  {
  }

  /** What the gate chose in layer l for the token at position p of a prompt. */
  ghost function PicksFor(prompt: seq<int>, gate: Gate, l: nat, p: int): seq<nat>
    requires 0 <= p < |prompt|
  {
    var picks := gate(prompt[..p + 1]);
    if l < |picks| then picks[l] else []
  }

  /** The gate's choices of expert e in layer l over a prompt, each as position and rank. */
  ghost function ChosenBy(prompt: seq<int>, gate: Gate, l: nat, e: nat): set<(int, int)> {
    set p, k | 0 <= p < |prompt| && 0 <= k < |PicksFor(prompt, gate, l, p)| && PicksFor(prompt, gate, l, p)[k] == e ::
      (p, k)
  }

  /** A row holds for every expert the number of the gate's choices. */
  ghost predicate ExactFor(prompt: seq<int>, gate: Gate, l: nat, row: seq<int>, experts: nat) {
    |row| == experts && forall e :: 0 <= e < experts ==> row[e] == |ChosenBy(prompt, gate, l, e)|
  }

  /** The gate chooses n experts in layer l for every token. */
  ghost predicate ChoosesEach(gate: Gate, l: nat, n: nat) {
    forall prefix :: l < |gate(prefix)| && |gate(prefix)[l]| == n
  }

  lemma ChosenAreChoices(prompt: seq<int>, gate: Gate, l: nat, e: nat)
    ensures ChosenBy(prompt, gate, l, e) == Choices(GateHistory(prompt, gate), l, e)
  {
    var h := GateHistory(prompt, gate);
    forall p | 0 <= p < |prompt|
      ensures PicksFor(prompt, gate, l, p) == if l < |h[p].picks| then h[p].picks[l] else []
    {
    }
  }

  lemma ExactMeans(prompt: seq<int>, gate: Gate, l: nat, row: seq<int>, experts: nat)
    ensures ExactRow(GateHistory(prompt, gate), l, row, experts) <==> ExactFor(prompt, gate, l, row, experts)
  {
    hide ChosenBy, Choices, Uses;
    forall e | 0 <= e < experts
      ensures Uses(GateHistory(prompt, gate), l, e) == |ChosenBy(prompt, gate, l, e)|
    {
      UsesAreChoices(GateHistory(prompt, gate), l, e);
      ChosenAreChoices(prompt, gate, l, e);
    }
  }

  lemma ExactTotal(prompt: seq<int>, gate: Gate, l: nat, row: seq<int>, layers: nat, experts: nat, n: nat)
    requires GateOk(gate, layers, experts) && l < layers && ExactRow(GateHistory(prompt, gate), l, row, experts)
    ensures ChoosesEach(gate, l, n) ==> RowSum(row) == |prompt| * n
  {
    hide GateOk, Uses, RowSum, Picked, PicksOk;
    var h := GateHistory(prompt, gate);
    GateTopK(gate, layers, experts, h);
    UsesTotal(h, l, row, layers);
    if ChoosesEach(gate, l, n) {
      PickedEach(h, l, n);
    }
  }

  /** Over every run, whatever was reused from earlier requests or from earlier rows of the same
      batch, and however prompts were cut into chunks and rows arranged: a step sends a signature
      for exactly the requests whose last prompt token it computes, and every sent number is
      exactly how often the gate chose the expert for the tokens of the prompt.  With n choices
      per token a row adds up to n for every token. */
  lemma SignaturesExact(bs: Size, caching: bool, gate: Gate, layers: nat, experts: nat,
                        states: seq<State>, steps: seq<Step>, i: nat, id: nat)
    requires bs < 128 && GateOk(gate, layers, experts)
    requires Run(bs, caching, gate, layers, experts, states, steps) && i < |steps|
    ensures |steps[i].moments| == |steps[i].ops| + 1
    ensures id in steps[i].sent <==>
            exists k :: 0 <= k < |Batch(steps[i])| && Batch(steps[i])[k].id == id && Finishes(Batch(steps[i])[k])
    ensures id in steps[i].sent ==>
              && id in states[i + 1].reqs && states[i + 1].reqs[id].computed == |states[i + 1].reqs[id].prompt|
              && |steps[i].sent[id]| == layers
              && forall l :: 0 <= l < layers ==>
                   && ExactFor(states[i + 1].reqs[id].prompt, gate, l, steps[i].sent[id][l], experts)
                   && forall n: nat :: ChoosesEach(gate, l, n) ==>
                        RowSum(steps[i].sent[id][l]) == |states[i + 1].reqs[id].prompt| * n
  {
    hide GateOk, Good, Act, Initial, Finishes, Batch, Permutes, Counted, Sent, ExactRow, Slots, Execs;
    hide ExactFor, ChoosesEach, RowSum, GateHistory;
    RunKeeps(bs, caching, gate, layers, experts, states, steps, i);
    var s, step, s' := states[i], steps[i], states[i + 1];
    assert Next(bs, caching, gate, layers, experts, s, step, s');
    if id in step.sent {
      StepExact(bs, caching, gate, layers, experts, s, step, s', id);
      var prompt, sig := s'.reqs[id].prompt, step.sent[id];
      forall l | 0 <= l < layers
        ensures ExactFor(prompt, gate, l, sig[l], experts)
        ensures forall n: nat :: ChoosesEach(gate, l, n) ==> RowSum(sig[l]) == |prompt| * n
      {
        ExactMeans(prompt, gate, l, sig[l], experts);
        forall n: nat ensures ChoosesEach(gate, l, n) ==> RowSum(sig[l]) == |prompt| * n {
          ExactTotal(prompt, gate, l, sig[l], layers, experts, n);
        }
      }
    }
  }

  /** A request without a row in this step is as it was, or its prompt is not complete. */
  ghost predicate Unscheduled(reqs: Reqs, m: Moment, id: nat) {
    id in m.reqs && Idle(m.chunks, id) ==>
      || (id in reqs && m.reqs[id] == reqs[id])
      || m.reqs[id].prompt == [] || m.reqs[id].computed < |m.reqs[id].prompt|
  }

  lemma ActUnscheduled(bs: Size, caching: bool, gate: Gate, reqs: Reqs, c: Contents, m: Moment, op: Op, m': Moment,
                       id: nat)
    requires Unscheduled(reqs, m, id) && Act(bs, caching, gate, c, m, op, m')
    ensures Unscheduled(reqs, m', id)
  {
    hide Touched, Freed, Allocated, Written, Lacking, NextTokens, Blk, StartOf, Computed;
    match op {
      case Enter(_, prompt, hits) => Starts(bs, |hits|, if prompt == [] then 0 else |prompt| - 1);
      case Extend(_, _) =>
        if Idle(m'.chunks, id) {
          assert forall k :: 0 <= k < |m.chunks| ==> m'.chunks[k] == m.chunks[k];
          assert m'.chunks[|m.chunks|].id != id;
        }
      case Release(_) =>
      case Withdraw(k) =>
        if id in m'.reqs && Idle(m'.chunks, id) {
          forall i | 0 <= i < |m.chunks| ensures m.chunks[i].id != id {
            assert i != k ==> m.chunks[i] == m'.chunks[if i < k then i else i - 1];
          }
        }
      case Evict(_) =>
      case Reset =>
    }
  }

  lemma {:induction false} TraceUnscheduled(bs: Size, caching: bool, gate: Gate, moments: seq<Moment>, ops: seq<Op>,
                                            i: nat, id: nat)
    requires Trace(bs, caching, gate, moments, ops) && i < |moments|
    ensures Unscheduled(moments[0].reqs, moments[i], id)
  {
    hide Act;
    if i > 0 {
      TraceUnscheduled(bs, caching, gate, moments, ops, i - 1, id);
      assert Act(bs, caching, gate, moments[0].contents, moments[i - 1], ops[i - 1], moments[i - 1 + 1]);
      ActUnscheduled(bs, caching, gate, moments[0].reqs, moments[0].contents, moments[i - 1], ops[i - 1],
          moments[i], id);
    }
  }

  /** Every row has a token. */
  lemma {:induction false} TraceTokens(bs: Size, caching: bool, gate: Gate, moments: seq<Moment>, ops: seq<Op>, i: nat)
    requires Trace(bs, caching, gate, moments, ops) && i < |moments| && moments[0].chunks == []
    ensures forall k :: 0 <= k < |moments[i].chunks| ==> moments[i].chunks[k].execs != []
  {
    hide Touched, Freed, Allocated, Written, Lacking, Found, FromGate, Computed, HeldBefore;
    if i > 0 {
      TraceTokens(bs, caching, gate, moments, ops, i - 1);
      assert Act(bs, caching, gate, moments[0].contents, moments[i - 1], ops[i - 1], moments[i - 1 + 1]);
    }
  }

  /** No signature is missed: a request whose prompt is complete after a step, and that was not
      there like this before, is sent for in that step. */
  lemma CompletedSent(bs: Size, caching: bool, gate: Gate, layers: nat, experts: nat,
                      states: seq<State>, steps: seq<Step>, i: nat, id: nat)
    requires GateOk(gate, layers, experts) && Run(bs, caching, gate, layers, experts, states, steps) && i < |steps|
    requires id in states[i + 1].reqs && states[i + 1].reqs[id].prompt != []
    requires states[i + 1].reqs[id].computed == |states[i + 1].reqs[id].prompt|
    requires !(id in states[i].reqs && states[i].reqs[id] == states[i + 1].reqs[id])
    ensures id in steps[i].sent
  {
    hide GateOk, Sound, Act, Initial, RowsOk, Computed, FromGate, Counted, Sent, Wrapped;
    RunKeeps(bs, caching, gate, layers, experts, states, steps, i);
    var s, step, s' := states[i], steps[i], states[i + 1];
    assert Next(bs, caching, gate, layers, experts, s, step, s');
    TraceUnscheduled(bs, caching, gate, step.moments, step.ops, |step.ops|, id);
    TraceTokens(bs, caching, gate, step.moments, step.ops, |step.ops|);
    TraceKeeps(bs, caching, gate, layers, experts, s.contents, step.moments, step.ops, |step.ops|);
    var last := step.moments[|step.ops|];
    var k :| 0 <= k < |last.chunks| && last.chunks[k].id == id;
    assert RowCurrent(last.reqs, last.chunks[k]);
    assert k in step.perm;
    var j :| 0 <= j < |step.perm| && step.perm[j] == k;
    assert Batch(step)[j] == last.chunks[k];
  }

  /** Over every run and at every moment of a step: a block found under a key holds the prefix the
      key stands for, or a row in flight is about to write it; and it does hold it once the rows
      in flight are computed. */
  lemma RunCached(bs: Size, caching: bool, gate: Gate, layers: nat, experts: nat,
                  states: seq<State>, steps: seq<Step>, i: nat, j: nat, b: nat)
    requires GateOk(gate, layers, experts) && Run(bs, caching, gate, layers, experts, states, steps) && i < |steps|
    requires j < |steps[i].moments| && b < |steps[i].moments[j].pool.hashes|
    requires steps[i].moments[j].pool.hashes[b].Some?
    ensures var m := steps[i].moments[j];
            var h := m.pool.hashes[b].value.hash;
            && Holds(bs, Computed(bs, states[i].contents, m.chunks), b, h)
            && (Holds(bs, states[i].contents, b, h) ||
                exists k :: 0 <= k < |m.chunks| && Writes(bs, m.chunks[k], b))
  {
    hide GateOk, Sound, Act, Initial, Permutes, Transported, InFlight, Holds, Writes, Wrapped, Computed;
    RunKeeps(bs, caching, gate, layers, experts, states, steps, i);
    assert Next(bs, caching, gate, layers, experts, states[i], steps[i], states[i + 1]);
    TraceKeeps(bs, caching, gate, layers, experts, states[i].contents, steps[i].moments, steps[i].ops, j);
    CachedHolds(bs, gate, states[i].contents, steps[i].moments[j], b);
  }

  // ----- withdrawing a scheduled row

  /** Under the priority policy the scheduler may preempt a request that it has already scheduled
      in the same step: the row is taken out of the batch, but the hashes stay. */
  ghost function Without(rows: seq<Chunk>, k: nat): (r: seq<Chunk>)
    requires k < |rows|
    ensures |r| == |rows| - 1 && forall i :: 0 <= i < |r| ==> r[i] == rows[if i < k then i else i + 1]
  {
    rows[..k] + rows[k + 1..]
  }

  lemma WithoutOk(bs: Size, n: nat, rows: seq<Chunk>, k: nat)
    requires RowsOk(bs, n, rows) && k < |rows|
    ensures RowsOk(bs, n, Without(rows, k))
  {
    hide RowOk, Writes;
    var r := Without(rows, k);
    forall i | 0 <= i < |r| ensures r[i] == rows[if i < k then i else i + 1] {}
    forall i, j, b | 0 <= i < j < |r| && Writes(bs, r[i], b) ensures !Writes(bs, r[j], b) {
      var i', j' := if i < k then i else i + 1, if j < k then j else j + 1;
      assert r[i] == rows[i'] && r[j] == rows[j'];
    }
  }

  /** Without a row the blocks it writes stay as they were; no other block changes. */
  lemma WithoutContents(bs: Size, c: Contents, rows: seq<Chunk>, k: nat, b: nat)
    requires RowsOk(bs, |c|, rows) && k < |rows| && b < |c|
    ensures RowsOk(bs, |c|, Without(rows, k))
    ensures |Computed(bs, c, Without(rows, k))| == |c|
    ensures Computed(bs, c, Without(rows, k))[b] ==
            if Writes(bs, rows[k], b) then c[b] else Computed(bs, c, rows)[b]
  {
    hide RowOk, Writes, WriteAll, Slots, Execs, InRange, SlotsOf;
    var r := Without(rows, k);
    WithoutOk(bs, |c|, rows, k);
    RowsInRange(bs, |c|, rows);
    RowsInRange(bs, |c|, r);
    forall i | 0 <= i < |r| ensures r[i] == rows[if i < k then i else i + 1] {}
    if Writes(bs, rows[k], b) {
      BatchUntouched(bs, c, r, b);
    } else if i :| 0 <= i < |rows| && Writes(bs, rows[i], b) {
      var i' := if i < k then i else i - 1;
      assert r[i'] == rows[i];
      BatchBlock(bs, c, rows, i, b);
      BatchBlock(bs, c, r, i', b);
    } else {
      BatchUntouched(bs, c, rows, b);
      BatchUntouched(bs, c, r, b);
    }
  }

  /** After a row is withdrawn every cached block still holds its prefix exactly when each cached
      block that the row was to write already held it. */
  lemma WithdrawTruthful(bs: Size, gate: Gate, c: Contents, m: Moment, k: nat)
    requires Sound(bs, gate, m) && InFlight(bs, gate, c, m) && |c| == |m.contents| && k < |m.chunks|
    ensures Truthful(bs, m.pool.hashes, Computed(bs, c, Without(m.chunks, k))) <==>
            forall b :: 0 <= b < |c| && Writes(bs, m.chunks[k], b) && m.pool.hashes[b].Some? ==>
              Holds(bs, c, b, m.pool.hashes[b].value.hash)
  {
    hide Inv, AllFromGate, RowsOk, Writes, Uncached, QueueMatches, FromGate, Computed, References, Tables;
    var c' := Computed(bs, c, Without(m.chunks, k));
    WithoutContents(bs, c, m.chunks, k, 0);
    forall b | 0 <= b < |c| ensures c'[b] == if Writes(bs, m.chunks[k], b) then c[b] else m.contents[b] {
      WithoutContents(bs, c, m.chunks, k, b);
    }
    forall b | 0 <= b < |c| && m.pool.hashes[b].Some?
      ensures Holds(bs, c', b, m.pool.hashes[b].value.hash) <==>
              (Writes(bs, m.chunks[k], b) ==> Holds(bs, c, b, m.pool.hashes[b].value.hash))
    {
      assert Holds(bs, m.contents, b, m.pool.hashes[b].value.hash);
    }
  }

  /** A row that completes no block meets the condition: the block it writes is not cached, and no
      other request uses it. */
  lemma WithdrawHarmless(bs: Size, gate: Gate, c: Contents, m: Moment, k: nat)
    requires Sound(bs, gate, m) && InFlight(bs, gate, c, m) && |c| == |m.contents| && k < |m.chunks|
    requires CompletesNone(bs, m.chunks[k])
    ensures HeldBefore(bs, c, m, k)
  {
    hide AllFromGate, Blk, Writes, Truthful, QueueMatches, FromGate, Computed, References, Tables, Unwritten, BlocksOk;
    hide Stored, OwnOnce, Apart, Holds, CompletesNone;
    var ch := m.chunks[k];
    assert RowOk(bs, |c|, ch) && RowCurrent(m.reqs, ch);
    forall b | 0 <= b < |c| && Writes(bs, ch, b) ensures HeldBlock(bs, c, m, ch.id, b) {
      StillUnwritten(bs, ch, b);
      assert NoHash(m.pool.hashes, b);
      forall a, i | a in m.reqs && a != ch.id && 0 <= i < |m.reqs[a].table| ensures m.reqs[a].table[i] != b {
        assert b !in m.reqs[a].table;
      }
    }
  }

  lemma StillUnwritten(bs: Size, ch: Chunk, b: nat)
    requires Continues(bs, ch.req, ch.execs) && Writes(bs, ch, b) && CompletesNone(bs, ch)
    ensures Unwritten(bs, Later(ch.req, |ch.execs|), b)
  {
    hide Blk, TopK, Writes;
    WritesOwn(bs, ch, b);
  }

  /** A full block of a request's prompt holds its tokens. */
  lemma HoldsGives(bs: Size, c: Contents, r: Req, p: nat)
    requires p < r.computed <= |r.prompt| && Blk(bs, p) < Blk(bs, r.computed) <= |r.table|
    requires Holds(bs, c, r.table[Blk(bs, p)], HashAt(bs, r.prompt, Blk(bs, p)))
    ensures HoldsAt(bs, c, r, p)
  {
    hide StartOf, Blk, Off;
    var i, o := Blk(bs, p), Off(bs, p);
    Starts(bs, i, p);
    NotLater(bs, r.computed, |r.prompt|);
    HashIs(bs, r.prompt, i);
    Starts(bs, i, |r.prompt|);
    var h := HashAt(bs, r.prompt, i);
    assert h[..|h| - bs + o + 1] == r.prompt[..p + 1];
  }

  /** A request whose blocks are the same, or full ones that hold its tokens, is served as before. */
  lemma StoredReplaced(bs: Size, c: Contents, c': Contents, r: Req)
    requires Stored(bs, c, r) && |c'| == |c|
    requires forall i :: 0 <= i < |r.table| ==>
               || c'[r.table[i]] == c[r.table[i]]
               || (i < Blk(bs, r.computed) && Holds(bs, c', r.table[i], HashAt(bs, r.prompt, i)))
    ensures Stored(bs, c', r)
  {
    hide Blk, Off, HashAt;
    forall p | 0 <= p < r.computed ensures HoldsAt(bs, c', r, p) {
      assert HoldsAt(bs, c, r, p);
      PositionReplaced(bs, c, c', r, p);
    }
  }

  lemma PositionReplaced(bs: Size, c: Contents, c': Contents, r: Req, p: nat)
    requires p < r.computed <= |r.prompt| && HoldsAt(bs, c, r, p) && |c'| == |c| && Blk(bs, r.computed) <= |r.table|
    requires var i := Blk(bs, p);
             || c'[r.table[i]] == c[r.table[i]]
             || (i < Blk(bs, r.computed) && Holds(bs, c', r.table[i], HashAt(bs, r.prompt, i)))
    ensures HoldsAt(bs, c', r, p)
  {
    hide Blk, Off, HashAt;
    var i := Blk(bs, p);
    if c'[r.table[i]] != c[r.table[i]] {
      HoldsGives(bs, c', r, p);
    }
  }

  lemma SameHolds(bs: Size, c: Contents, c': Contents, b: nat, h: Hash)
    requires |c'| == |c| && b < |c| && c'[b] == c[b]
    ensures Holds(bs, c', b, h) <==> Holds(bs, c, b, h)
  {
  }

  /** A block that a row writes is used by others only as a full block of theirs. */
  lemma SharedIsFull(bs: Size, reqs: Reqs, ch: Chunk, a: nat, i: nat)
    requires Owned(bs, reqs) && RowCurrent(reqs, ch) && Continues(bs, ch.req, ch.execs)
    requires a in reqs && a != ch.id && i < |reqs[a].table| && Writes(bs, ch, reqs[a].table[i])
    ensures i < Blk(bs, reqs[a].computed)
  {
    hide Continues, Writes, OwnOnce, Blk;
    assert i >= Blk(bs, reqs[a].computed) ==> Unwritten(bs, reqs[a], reqs[a].table[i]);
    WritesOwn(bs, ch, reqs[a].table[i]);
  }

  /** Under the condition the other requests are served as before. */
  lemma WithdrawStored(bs: Size, c: Contents, c': Contents, m: Moment, k: nat, a: nat)
    requires Inv(bs, m.contents, m.reqs) && k < |m.chunks| && a in m.reqs && a != m.chunks[k].id
    requires RowCurrent(m.reqs, m.chunks[k]) && Continues(bs, m.chunks[k].req, m.chunks[k].execs)
    requires |c'| == |c| == |m.contents| && HeldBefore(bs, c, m, k)
    requires forall b :: 0 <= b < |c| ==> c'[b] == if Writes(bs, m.chunks[k], b) then c[b] else m.contents[b]
    ensures Stored(bs, c', m.reqs[a])
  {
    hide OwnOnce, Unwritten, Writes, Continues, Blk, HashAt, BlocksOk, RowCurrent, Owned, Holds;
    var r, ch := m.reqs[a], m.chunks[k];
    StoredOf(bs, m.contents, m.reqs, a);
    TableInRange(bs, m.contents, r);
    InvOwned(bs, m.contents, m.reqs);
    hide Inv, Stored;
    forall i | 0 <= i < |r.table|
      ensures || c'[r.table[i]] == m.contents[r.table[i]]
              || (i < Blk(bs, r.computed) && Holds(bs, c', r.table[i], HashAt(bs, r.prompt, i)))
    {
      var b := r.table[i];
      if Writes(bs, ch, b) {
        SharedIsFull(bs, m.reqs, ch, a, i);
        assert HeldBlock(bs, c, m, ch.id, b);
        SameHolds(bs, c, c', b, HashAt(bs, r.prompt, i));
      }
    }
    StoredReplaced(bs, m.contents, c', r);
  }

  lemma InvOwned(bs: Size, c: Contents, reqs: Reqs)
    requires Inv(bs, c, reqs)
    ensures Owned(bs, reqs)
  {
  }

  lemma TableInRange(bs: Size, c: Contents, r: Req)
    requires Stored(bs, c, r)
    ensures forall i :: 0 <= i < |r.table| ==> r.table[i] < |c|
  {
  }

  /** The contents without the row, whether or not the condition holds. */
  lemma WithdrawContents(bs: Size, gate: Gate, c: Contents, m: Moment, k: nat)
    requires Sound(bs, gate, m) && Before(bs, gate, c) && InFlight(bs, gate, c, m) && |c| == |m.contents|
    requires k < |m.chunks|
    ensures var c' := Computed(bs, c, Without(m.chunks, k));
            && |c'| == |c| && Before(bs, gate, c') && m.chunks[k].id in m.reqs
            && forall b :: 0 <= b < |c| ==> c'[b] == if Writes(bs, m.chunks[k], b) then c[b] else m.contents[b]
  {
    hide Stored, Writes, Computed, Apart, Truthful, Uncached, References, QueueMatches, TopK, FromGate, RowOk, Owned;
    hide Without;
    var ch := m.chunks[k];
    assert RowCurrent(m.reqs, ch);
    var c' := Computed(bs, c, Without(m.chunks, k));
    WithoutContents(bs, c, m.chunks, k, 0);
    forall b | 0 <= b < |c| ensures c'[b] == if Writes(bs, ch, b) then c[b] else m.contents[b] {
      WithoutContents(bs, c, m.chunks, k, b);
    }
  }

  /** Withdrawing a row leaves everything else in order exactly when the blocks it writes already
      held what their hashes and the other requests using them say. */
  lemma WithdrawKeeps(bs: Size, gate: Gate, c: Contents, m: Moment, k: nat, pool: Pool)
    requires Sound(bs, gate, m) && Before(bs, gate, c) && InFlight(bs, gate, c, m) && |c| == |m.contents|
    requires k < |m.chunks|
    requires Freed(m.pool, Backwards(m.reqs[m.chunks[k].id].table), pool)
    ensures var m' := Moment(pool, Computed(bs, c, Without(m.chunks, k)), m.reqs - {m.chunks[k].id},
                             Without(m.chunks, k));
            && (Sound(bs, gate, m') <==> HeldBefore(bs, c, m, k))
            && InFlight(bs, gate, c, m') && |m'.contents| == |c|
  {
    hide Sound, Computed, HeldBefore, RowsOk, FromGate, Before, Released, Count, Writes;
    var rows := Without(m.chunks, k);
    var m' := Moment(pool, Computed(bs, c, rows), m.reqs - {m.chunks[k].id}, rows);
    WithdrawContents(bs, gate, c, m, k);
    WithoutOk(bs, |c|, m.chunks, k);
    forall i | 0 <= i < |rows| ensures rows[i] == m.chunks[if i < k then i else i + 1] {}
    if HeldBefore(bs, c, m, k) {
      WithdrawSuffices(bs, gate, c, m, k, m');
    }
    if Sound(bs, gate, m') {
      WithdrawNeeds(bs, gate, c, m, k, m');
    }
  }

  lemma WithdrawSuffices(bs: Size, gate: Gate, c: Contents, m: Moment, k: nat, m': Moment)
    requires Sound(bs, gate, m) && Before(bs, gate, c) && InFlight(bs, gate, c, m) && |c| == |m.contents|
    requires k < |m.chunks| && m.chunks[k].id in m.reqs && HeldBefore(bs, c, m, k)
    requires Freed(m.pool, Backwards(m.reqs[m.chunks[k].id].table), m'.pool)
    requires m'.contents == Computed(bs, c, Without(m.chunks, k)) && m'.reqs == m.reqs - {m.chunks[k].id}
    ensures Sound(bs, gate, m')
  {
    hide Computed, Truthful, References, QueueMatches, AllFromGate, FromGate, Uncached, Released, Count, Tables, Apart;
    hide Stored, Owned, BlocksOk, Writes, Continues, OwnOnce, Holds, HashAt;
    var ch := m.chunks[k];
    assert RowOk(bs, |c|, ch) && RowCurrent(m.reqs, ch);
    ReleaseKeeps(bs, gate, m, ch.id, m'.pool);
    WithdrawContents(bs, gate, c, m, k);
    forall a | a in m'.reqs ensures Stored(bs, m'.contents, m'.reqs[a]) {
      WithdrawStored(bs, c, m'.contents, m, k, a);
    }
    WithdrawTruthful(bs, gate, c, m, k);
    forall b | 0 <= b < |c| && Writes(bs, ch, b) ensures HeldBlock(bs, c, m, ch.id, b) {}
  }

  lemma WithdrawNeeds(bs: Size, gate: Gate, c: Contents, m: Moment, k: nat, m': Moment)
    requires Sound(bs, gate, m) && Before(bs, gate, c) && InFlight(bs, gate, c, m) && |c| == |m.contents|
    requires k < |m.chunks| && m.chunks[k].id in m.reqs && Sound(bs, gate, m') && m'.pool.hashes == m.pool.hashes
    requires m'.contents == Computed(bs, c, Without(m.chunks, k)) && m'.reqs == m.reqs - {m.chunks[k].id}
    ensures HeldBefore(bs, c, m, k)
  {
    hide Computed, References, QueueMatches, AllFromGate, FromGate, Uncached, Tables, Apart, Holds, HashAt, Blk;
    hide BlocksOk, Writes, Continues, OwnOnce, Stored, Unwritten;
    var ch, c' := m.chunks[k], m'.contents;
    assert RowOk(bs, |c|, ch) && RowCurrent(m.reqs, ch);
    WithdrawContents(bs, gate, c, m, k);
    forall b | 0 <= b < |c| && Writes(bs, ch, b) ensures HeldBlock(bs, c, m, ch.id, b) {
      if m.pool.hashes[b].Some? {
        SameHolds(bs, c, c', b, m.pool.hashes[b].value.hash);
      }
      forall a, i | a in m.reqs && a != ch.id && 0 <= i < |m.reqs[a].table| && m.reqs[a].table[i] == b
        ensures Holds(bs, c, b, HashAt(bs, m.reqs[a].prompt, i))
      {
        SharedIsFull(bs, m.reqs, ch, a, i);
        assert m'.reqs[a] == m.reqs[a];
        FullHolds(bs, c', m.reqs[a], i);
        SameHolds(bs, c, c', b, HashAt(bs, m.reqs[a].prompt, i));
      }
    }
  }

  // ----- without prefix caching

  /** Nothing is cached, and no two requests share a block. */
  ghost predicate Unshared(m: Moment) {
    && (forall b :: 0 <= b < |m.pool.hashes| ==> m.pool.hashes[b].None?)
    && forall a, b, x :: a in m.reqs && b in m.reqs && a != b && x in m.reqs[a].table ==> x !in m.reqs[b].table
  }

  lemma ActUnshared(bs: Size, gate: Gate, c: Contents, m: Moment, op: Op, m': Moment)
    requires Sound(bs, gate, m) && Unshared(m) && Act(bs, false, gate, c, m, op, m')
    ensures Unshared(m')
  {
    hide Inv, QueueMatches, Truthful, Uncached, AllFromGate, Computed, Written, HeldBefore, NextTokens, Lacking, Count;
    hide DropAll, Released, HashAt;
    match op {
      case Enter(_, prompt, hits) => FirstFound(bs, m.pool.hashes, prompt, hits);
      case Extend(id, execs) =>
        var p1 :| Allocated(bs, false, m.pool, m.reqs[id], |execs|, p1, m'.pool);
        var k := Lacking(bs, m.reqs[id], |execs|);
        NewAllocatable(m.pool, m.contents, m.reqs, k, p1);
        TakenUncached(m.pool, k, p1);
        GrownUnshared(m.reqs, id, m.pool.free[..k], m'.reqs);
      case Release(_) =>
      case Withdraw(_) =>
      case Evict(_) =>
      case Reset =>
    }
  }

  lemma FirstFound(bs: Size, hashes: seq<Option<Key>>, prompt: seq<int>, hits: seq<Block>)
    requires Found(bs, hashes, prompt, hits)
    ensures hits != [] ==> hits[0] < |hashes| && hashes[hits[0]].Some?
  {
  }

  lemma TakenUncached(p: Pool, k: nat, p': Pool)
    requires Taken(p, k, p') && forall b :: 0 <= b < |p.hashes| ==> p.hashes[b].None?
    ensures forall b :: 0 <= b < |p'.hashes| ==> p'.hashes[b].None?
  {
    forall b | 0 <= b < |p'.hashes| ensures p'.hashes[b].None? {
      assert b in p.free[..k] || p'.refCnt[b] == p.refCnt[b];
    }
  }

  lemma GrownUnshared(reqs: Reqs, id: nat, blocks: seq<Block>, reqs': Reqs)
    requires id in reqs && id in reqs' && reqs' == reqs[id := reqs'[id]]
    requires reqs'[id].table == reqs[id].table + blocks
    requires forall a, i :: a in reqs && 0 <= i < |blocks| ==> blocks[i] !in reqs[a].table
    requires forall a, b, x :: a in reqs && b in reqs && a != b && x in reqs[a].table ==> x !in reqs[b].table
    ensures forall a, b, x :: a in reqs' && b in reqs' && a != b && x in reqs'[a].table ==> x !in reqs'[b].table
  {
    forall a, b, x | a in reqs' && b in reqs' && a != b && x in reqs'[a].table ensures x !in reqs'[b].table {
      if x in blocks {
        var i :| 0 <= i < |blocks| && blocks[i] == x;
      }
    }
  }

  /** Then every row may be withdrawn. */
  lemma UnsharedWithdraw(bs: Size, gate: Gate, c: Contents, m: Moment, k: nat)
    requires InFlight(bs, gate, c, m) && Unshared(m) && k < |m.chunks|
    ensures HeldBefore(bs, c, m, k)
  {
    hide Computed, Apart, Writes, Holds, HashAt, Continues, OwnOnce, InRange, FromGate;
    var ch := m.chunks[k];
    assert RowOk(bs, |c|, ch) && RowCurrent(m.reqs, ch);
    forall b | 0 <= b < |c| && Writes(bs, ch, b) ensures HeldBlock(bs, c, m, ch.id, b) {
      WritesOwn(bs, ch, b);
      forall a, i | a in m.reqs && a != ch.id && 0 <= i < |m.reqs[a].table| ensures m.reqs[a].table[i] != b {
        assert b !in m.reqs[a].table;
      }
    }
  }

  lemma {:induction false} TraceUnshared(bs: Size, gate: Gate, layers: nat, experts: nat, c: Contents,
                                         moments: seq<Moment>, ops: seq<Op>, i: nat)
    requires GateOk(gate, layers, experts) && Trace(bs, false, gate, moments, ops) && i < |moments|
    requires Sound(bs, gate, moments[0]) && Start(c, moments[0]) && Unshared(moments[0])
    ensures Unshared(moments[i])
  {
    hide GateOk, Sound, Act, Unshared, InFlight;
    if i > 0 {
      TraceUnshared(bs, gate, layers, experts, c, moments, ops, i - 1);
      TraceKeeps(bs, false, gate, layers, experts, c, moments, ops, i - 1);
      assert Act(bs, false, gate, moments[0].contents, moments[i - 1], ops[i - 1], moments[i - 1 + 1]);
      ActUnshared(bs, gate, moments[0].contents, moments[i - 1], ops[i - 1], moments[i]);
    }
  }

  lemma {:induction false} RunUnshared(bs: Size, gate: Gate, layers: nat, experts: nat,
                                       states: seq<State>, steps: seq<Step>, i: nat)
    requires GateOk(gate, layers, experts) && Run(bs, false, gate, layers, experts, states, steps) && i < |states|
    ensures Unshared(Moment(states[i].pool, states[i].contents, states[i].reqs, []))
  {
    hide GateOk, Act, Unshared, Transported, Sound, Wrapped, Computed, Permutes;
    if i == 0 {
      InitialUnshared(layers, experts, states[0]);
    } else {
      hide Initial;
      RunUnshared(bs, gate, layers, experts, states, steps, i - 1);
      RunKeeps(bs, false, gate, layers, experts, states, steps, i - 1);
      var s, step := states[i - 1], steps[i - 1];
      assert Next(bs, false, gate, layers, experts, s, step, states[i - 1 + 1]);
      TraceUnshared(bs, gate, layers, experts, s.contents, step.moments, step.ops, |step.ops|);
      SameUnshared(step.moments[|step.ops|], Moment(states[i].pool, states[i].contents, states[i].reqs, []));
    }
  }

  lemma SameUnshared(m: Moment, m': Moment)
    requires Unshared(m) && m'.pool == m.pool && m'.reqs == m.reqs
    ensures Unshared(m')
  {
  }

  lemma InitialUnshared(layers: nat, experts: nat, s: State)
    requires Initial(layers, experts, s)
    ensures Unshared(Moment(s.pool, s.contents, s.reqs, []))
  {
    hide QueueMatches;
  }

  /** Over every run without prefix caching, at every moment, every row may be withdrawn. */
  lemma UncachedRunWithdraws(bs: Size, gate: Gate, layers: nat, experts: nat,
                             states: seq<State>, steps: seq<Step>, i: nat, j: nat, k: nat)
    requires GateOk(gate, layers, experts) && Run(bs, false, gate, layers, experts, states, steps) && i < |steps|
    requires j < |steps[i].moments| && k < |steps[i].moments[j].chunks|
    ensures HeldBefore(bs, states[i].contents, steps[i].moments[j], k)
  {
    hide GateOk, Act, Unshared, Transported, Sound, Wrapped, Computed, Permutes, Initial, InFlight, HeldBefore;
    RunKeeps(bs, false, gate, layers, experts, states, steps, i);
    RunUnshared(bs, gate, layers, experts, states, steps, i);
    var s, step := states[i], steps[i];
    assert Next(bs, false, gate, layers, experts, s, step, states[i + 1]);
    TraceKeeps(bs, false, gate, layers, experts, s.contents, step.moments, step.ops, j);
    TraceUnshared(bs, gate, layers, experts, s.contents, step.moments, step.ops, j);
    UnsharedWithdraw(bs, gate, s.contents, step.moments[j], k);
  }

  // ----- no block too many

  /** Every request has exactly the blocks of its computed tokens. */
  ghost predicate Snug(bs: Size, reqs: Reqs) {
    forall a :: a in reqs ==> |reqs[a].table| == BlocksFor(bs, reqs[a].computed)
  }

  lemma EnteredSnug(bs: Size, prompt: seq<int>, hits: seq<Block>)
    ensures var r := Entered(bs, prompt, hits); |r.table| == BlocksFor(bs, r.computed)
  {
    hide Blk, Off, StartOf, BlocksFor;
    WholeBlocks(bs, |hits|);
    BlocksNeeded(bs, StartOf(bs, |hits|));
  }

  lemma GrownSnug(bs: Size, r: Req, n: nat, blocks: seq<Block>)
    requires |r.table| == BlocksFor(bs, r.computed) && |blocks| == Lacking(bs, r, n)
    ensures var r' := Later(Grown(r, blocks), n); |r'.table| == BlocksFor(bs, r'.computed)
  {
    hide BlocksFor, StartOf;
    BlocksNeeded(bs, r.computed);
    BlocksNeeded(bs, r.computed + n);
    if n > 0 {
      EarlierPosition(bs, r.computed, r.computed + n);
    }
  }

  lemma ActSnug(bs: Size, caching: bool, gate: Gate, c: Contents, m: Moment, op: Op, m': Moment)
    requires Snug(bs, m.reqs) && Act(bs, caching, gate, c, m, op, m')
    ensures Snug(bs, m'.reqs)
  {
    hide BlocksFor, Touched, Freed, Recorded, Taken, Written, Computed, HeldBefore, Found, Unhashed;
    hide NextTokens, Lacking, Entered;
    match op {
      case Enter(_, prompt, hits) => EnteredSnug(bs, prompt, hits);
      case Extend(id, execs) =>
        GrownSnug(bs, m.reqs[id], |execs|, m.pool.free[..Lacking(bs, m.reqs[id], |execs|)]);
      case Release(_) =>
      case Withdraw(_) =>
      case Evict(_) =>
      case Reset =>
    }
  }

  lemma {:induction false} TraceSnug(bs: Size, caching: bool, gate: Gate, moments: seq<Moment>, ops: seq<Op>, i: nat)
    requires Trace(bs, caching, gate, moments, ops) && i < |moments| && Snug(bs, moments[0].reqs)
    ensures Snug(bs, moments[i].reqs)
  {
    hide Act, Snug;
    if i > 0 {
      TraceSnug(bs, caching, gate, moments, ops, i - 1);
      assert Act(bs, caching, gate, moments[0].contents, moments[i - 1], ops[i - 1], moments[i - 1 + 1]);
      ActSnug(bs, caching, gate, moments[0].contents, moments[i - 1], ops[i - 1], moments[i]);
    }
  }

  /** Over every run, after every step: a request holds the blocks of its computed tokens and no
      block more. */
  lemma {:induction false} RunSnug(bs: Size, caching: bool, gate: Gate, layers: nat, experts: nat,
                                   states: seq<State>, steps: seq<Step>, i: nat)
    requires Run(bs, caching, gate, layers, experts, states, steps) && i < |states|
    ensures Snug(bs, states[i].reqs)
  {
    hide Act, Transported, Computed, Permutes;
    if i > 0 {
      hide Initial, Snug;
      RunSnug(bs, caching, gate, layers, experts, states, steps, i - 1);
      var step := steps[i - 1];
      assert Next(bs, caching, gate, layers, experts, states[i - 1], step, states[i - 1 + 1]);
      TraceSnug(bs, caching, gate, step.moments, step.ops, |step.ops|);
    }
  }

  // ----- the order of eviction

  /** The blocks of a leaving request are evicted from its end: a block that continues another one
      goes first. */
  lemma ContinuationEvictedFirst(p: Pool, table: seq<Block>, p': Pool, i: nat, j: nat) returns (x: nat, y: nat)
    requires Freed(p, Backwards(table), p') && i < j < |table|
    requires 0 < table[i] < |p'.refCnt| && 0 < table[j] < |p'.refCnt|
    requires p'.refCnt[table[i]] == 0 && p'.refCnt[table[j]] == 0
    ensures x < y < |p'.free| && p'.free[x] == table[j] && p'.free[y] == table[i]
  {
    hide Released;
    var s, cnt := Backwards(table), p'.refCnt;
    var a, b := |table| - 1 - j, |table| - 1 - i;
    var before, after := s[..b], s[b + 1..];
    assert s == before + ([s[b]] + after) && before[a] == s[a] == table[j] && s[b] == table[i];
    ReleasedInOrder(before, [s[b]] + after, cnt);
    ReleasedFirst(s[b], after, cnt);
    var first := Released(before, cnt);
    ReleasedCount(before, cnt, s[a]);
    CountMember(before, s[a]);
    CountMember(first, s[a]);
    var k :| 0 <= k < |first| && first[k] == s[a];
    x, y := |p.free| + k, |p.free| + |first|;
  }

  lemma ReleasedFirst(b: Block, rest: seq<Block>, refCnt: seq<int>)
    requires 0 < b < |refCnt| && refCnt[b] == 0 && forall i :: 0 <= i < |rest| ==> rest[i] < |refCnt|
    ensures Released([b] + rest, refCnt) == [b] + Released(rest, refCnt)
  {
    hide Released;
    ReleasedInOrder([b], rest, refCnt);
    ReleasedInOrder([], [b], refCnt);
  }

  // ----- a withdrawal that makes a signature wrong

  /** What the pool of the example has: block 0, and blocks 1 and 2 with one token each. */
  ghost function Lying(refs: seq<int>, first: Option<Key>, second: Option<Key>, free: seq<Block>): Pool {
    Pool(refs, [None, first, second], free)
  }

  const KEY5 := Some(Key([5], 0))
  const KEY56 := Some(Key([5, 6], 0))

  ghost function Nothing(): Contents { [[], [], []] }

  lemma OneTokenBlocks()
    ensures forall n: nat :: Blk(1, n) == n && Off(1, n) == 0 && StartOf(1, n) == n && BlocksFor(1, n) == n
  {
  }

  lemma OneTokenHashes(prompt: seq<int>)
    ensures |BlockHashes(1, prompt)| == |prompt|
    ensures forall i :: 0 <= i < |prompt| ==> BlockHashes(1, prompt)[i] == prompt[..i + 1]
  {
    OneTokenBlocks();
  }

  /** A request enters on the given blocks. */
  lemma LyingEnter(gate: Gate, c: Contents, m: Moment, id: nat, prompt: seq<int>, hits: seq<Block>, m': Moment)
    requires id !in m.reqs && |prompt| == 2 && |hits| < 2 && Touched(m.pool, hits, m'.pool)
    requires forall i :: 0 <= i < |hits| ==>
               hits[i] < |m.pool.hashes| && m.pool.hashes[hits[i]] == Some(Key(prompt[..i + 1], 0))
    requires m' == Moment(m'.pool, m.contents, m.reqs[id := Req(prompt, |hits|, hits)], m.chunks)
    ensures Act(1, true, gate, c, m, Enter(id, prompt, hits), m')
  {
    hide Touched;
    OneTokenBlocks();
    OneTokenHashes(prompt);
  }

  /** A request is scheduled for its next token and gets the first free block for it. */
  lemma LyingExtend(gate: Gate, c: Contents, m: Moment, id: nat, r: Req, x: Exec, p: Pool, m': Moment)
    requires id in m.reqs && m.reqs[id] == r && m.chunks == []
    requires r.computed == |r.table| < |r.prompt| && x == GateExec(gate, r.prompt[..r.computed + 1])
    requires Taken(m.pool, 1, p) && 0 < |m.pool.free|
    requires Hashed(p, [m.pool.free[0]], [r.prompt[..r.computed + 1]], 0, m'.pool)
    requires var ch := Chunk(id, Grown(r, [m.pool.free[0]]), [x]);
             m' == Moment(m'.pool, Written(1, m.contents, ch), m.reqs[id := Later(ch.req, 1)], [ch])
    ensures Act(1, true, gate, c, m, Extend(id, [x]), m')
  {
    hide Written, Taken, Hashed, Later;
    OneTokenBlocks();
    var b := m.pool.free[0];
    assert Lacking(1, r, 1) == 1 && m.pool.free[..1] == [b];
    assert NextTokens(gate, r, [x]);
    LyingRecord(p, Grown(r, [b]), m'.pool);
    assert Allocated(1, true, m.pool, r, 1, p, m'.pool);
    assert m.chunks + [Chunk(id, Grown(r, [b]), [x])] == m'.chunks;
  }

  ghost function GateExec(gate: Gate, prefix: seq<int>): Exec { Exec(prefix, gate(prefix)) }

  lemma LyingRecord(p: Pool, r: Req, p': Pool)
    requires r.computed + 1 == |r.table| <= |r.prompt|
    requires Hashed(p, [r.table[r.computed]], [r.prompt[..r.computed + 1]], 0, p')
    ensures Recorded(1, true, p, r, 1, p')
  {
    OneTokenBlocks();
    OneTokenHashes(r.prompt);
    var n := r.computed;
    var keys := Tail(BlockHashes(1, r.prompt), n);
    assert Slice(r.table, n, n + 1) == [r.table[n]] && |keys| >= 1 && keys[0] == r.prompt[..n + 1];
  }

  lemma LyingStart(gate: Gate, m: Moment)
    requires m == Moment(Lying([0, 0, 0], None, None, [1, 2]), Nothing(), map[], [])
    ensures Sound(1, gate, m)
  {
    var s := State(m.pool, m.contents, [[], [], []], m.reqs);
    assert Distinct(m.pool.free) && forall b: Block :: b in m.pool.free <==> b == 1 || b == 2;
    assert Initial(0, 0, s);
    InitialGood(1, gate, 0, 0, s);
  }

  /** The moves of the pool in the example. */
  lemma LyingPools()
    ensures Touched(Lying([0, 0, 0], None, None, [1, 2]), [], Lying([0, 0, 0], None, None, [1, 2]))
    ensures Taken(Lying([0, 0, 0], None, None, [1, 2]), 1, Lying([0, 1, 0], None, None, [2]))
    ensures Freed(Lying([0, 1, 0], KEY5, None, [2]), [1], Lying([0, 0, 0], KEY5, None, [2, 1]))
    ensures Touched(Lying([0, 1, 0], KEY5, None, [2]), [1], Lying([0, 2, 0], KEY5, None, [2]))
    ensures Touched(Lying([0, 0, 0], KEY5, None, [2, 1]), [1], Lying([0, 1, 0], KEY5, None, [2]))
    ensures Taken(Lying([0, 1, 0], KEY5, None, [2]), 1, Lying([0, 1, 1], KEY5, None, []))
  {
    hide DropAll, Released, Count;
    LyingTaken();
    hide Taken;
    NoTouch([1, 2]);
    LyingCounts();
    LyingQueue();
  }

  lemma LyingTaken()
    ensures Taken(Lying([0, 0, 0], None, None, [1, 2]), 1, Lying([0, 1, 0], None, None, [2]))
    ensures Taken(Lying([0, 1, 0], KEY5, None, [2]), 1, Lying([0, 1, 1], KEY5, None, []))
  {
    assert [1, 2][..1] == [1] && [1, 2][1..] == [2] && [2][..1] == [2] && [2][1..] == [];
  }

  lemma LyingCounts()
    ensures forall b: Block :: Count([1], b) == if b == 1 then 1 else 0
  {
    assert [1][..0] == [];
    forall b: Block ensures Count([1], b) == if b == 1 then 1 else 0 {}
  }

  lemma LyingQueue()
    ensures DropAll([2], [1]) == [2] && DropAll([2, 1], [1]) == [2] && Released([1], [0, 0, 0]) == [1]
  {
    assert [1][..0] == [];
    assert [2][1..] == [] && [2, 1][1..] == [1] && [1][1..] == [];
    assert Drop([1], 1) == [] && Drop([2], 1) == [2] && Drop([2, 1], 1) == [2];
  }

  lemma LyingHashes()
    ensures Hashed(Lying([0, 1, 0], None, None, [2]), [1], [[5]], 0, Lying([0, 1, 0], KEY5, None, [2]))
    ensures Hashed(Lying([0, 1, 1], KEY5, None, []), [2], [[5, 6]], 0, Lying([0, 1, 1], KEY5, KEY56, []))
  {
  }

  /** Two usable blocks: a request for two tokens is scheduled for its first, then withdrawn.  The
      block stays cached for that token and holds nothing. */
  lemma WithdrawnRowLies(gate: Gate) returns (m0: Moment, m1: Moment, m2: Moment, m3: Moment)
    ensures Sound(1, gate, m0) && Start(m0.contents, m0)
    ensures Act(1, true, gate, m0.contents, m0, Enter(0, [5, 6], []), m1)
    ensures Act(1, true, gate, m0.contents, m1, Extend(0, [GateExec(gate, [5])]), m2)
    ensures |m2.chunks| == 1 && Withdrawn(1, m0.contents, m2, 0, m3)
    ensures !Truthful(1, m3.pool.hashes, m3.contents)
    ensures m0.contents == Nothing() && m2.pool == Lying([0, 1, 0], KEY5, None, [2]) && 1 !in m2.reqs
    ensures m3 == Moment(Lying([0, 0, 0], KEY5, None, [2, 1]), Nothing(), map[], [])
  {
    hide Act, Sound, Truthful, Written, Later, Touched, Taken, Freed, Hashed;
    var c := Nothing();
    var p := Lying([0, 0, 0], None, None, [1, 2]);
    var r := Req([5, 6], 0, []);
    m0 := Moment(p, c, map[], []);
    m1 := Moment(p, c, map[0 := r], []);
    var ch := Chunk(0, Grown(r, [1]), [GateExec(gate, [5])]);
    m2 := Moment(Lying([0, 1, 0], KEY5, None, [2]), Written(1, c, ch), map[0 := Later(ch.req, 1)], [ch]);
    m3 := Moment(Lying([0, 0, 0], KEY5, None, [2, 1]), c, map[], []);
    LyingStart(gate, m0);
    LyingPools();
    LyingHashes();
    assert m0.reqs[0 := Req([5, 6], 0, [])] == m1.reqs;
    LyingEnter(gate, c, m0, 0, [5, 6], [], m1);
    assert r.prompt[..1] == [5] && m1.reqs[0 := Later(ch.req, 1)] == m2.reqs;
    LyingExtend(gate, c, m1, 0, r, ch.execs[0], Lying([0, 1, 0], None, None, [2]), m2);
    LyingWithdrawn(c, m2, ch, m3);
    LyingHash(m3);
  }

  lemma LyingWithdrawn(c: Contents, m: Moment, ch: Chunk, m': Moment)
    requires m.chunks == [ch] && m.reqs == map[ch.id := Later(ch.req, 1)] && ch.req.table == [1]
    requires Freed(m.pool, [1], m'.pool) && m' == Moment(m'.pool, c, map[], [])
    ensures Withdrawn(1, c, m, 0, m')
  {
    hide Freed;
    assert Backwards([1]) == [1] && Without(m.chunks, 0) == [];
    NoRows(1, c);
  }

  lemma LyingHash(m: Moment)
    requires m == Moment(Lying([0, 0, 0], KEY5, None, [2, 1]), Nothing(), map[], [])
    ensures !Truthful(1, m.pool.hashes, m.contents)
  {
    assert m.pool.hashes[1].Some? && !Holds(1, m.contents, 1, [5]);
  }

  /** A request reuses a block that an earlier row of the same step is only about to write. */
  lemma SameStepReuse(gate: Gate) returns (m0: Moment, m1: Moment, m2: Moment, m3: Moment)
    ensures Sound(1, gate, m0) && Start(m0.contents, m0)
    ensures Act(1, true, gate, m0.contents, m0, Enter(0, [5, 6], []), m1)
    ensures Act(1, true, gate, m0.contents, m1, Extend(0, [GateExec(gate, [5])]), m2)
    ensures Act(1, true, gate, m0.contents, m2, Enter(1, [5, 7], [1]), m3)
    ensures !Holds(1, m0.contents, 1, [5])
  {
    hide Act, Sound, Truthful, Touched, Taken, Freed, Hashed, Withdrawn;
    var m;
    m0, m1, m2, m := WithdrawnRowLies(gate);
    m3 := Moment(Lying([0, 2, 0], KEY5, None, [2]), m2.contents, m2.reqs[1 := Req([5, 7], 1, [1])], m2.chunks);
    LyingPools();
    assert [5, 7][..1] == [5];
    LyingEnter(gate, m0.contents, m2, 1, [5, 7], [1], m3);
  }

  /** The next request with the same prompt starts on that block.  Whatever the cells were when they
      counted nothing, what is sent for it misses an expert that the gate chose for its first
      token. */
  lemma WithdrawnSignatureWrong(gate: Gate, layers: nat, experts: nat, l: nat, m3: Moment)
    returns (m4: Moment, m5: Moment)
    requires GateOk(gate, layers, experts) && l < layers && |gate([5])| == layers && gate([5])[l] != []
    requires m3 == Moment(Lying([0, 0, 0], KEY5, None, [2, 1]), Nothing(), map[], [])
    ensures Act(1, true, gate, m3.contents, m3, Enter(1, [5, 6], [1]), m4)
    ensures Act(1, true, gate, m3.contents, m4, Extend(1, [GateExec(gate, [5, 6])]), m5)
    ensures Ready(1, m5.chunks, |m3.contents|, layers, experts)
    ensures forall cells, cells', sent ::
              Wrapped(cells, m3.contents, layers, experts) &&
              Transported(1, m5.chunks, cells, cells', sent, layers, experts) ==>
                1 in sent && |sent[1]| == layers && !ExactFor([5, 6], gate, l, sent[1][l], experts)
  {
    hide Act, Written, Later, Touched, Taken, Hashed, GateOk, Wrapped, Transported, ExactRow, GateHistory, Ready;
    hide ChoiceOk, ExactFor;
    var r := Req([5, 6], 1, [1]);
    var x := GateExec(gate, [5, 6]);
    var ch := Chunk(1, Req([5, 6], 1, [1, 2]), [x]);
    m4 := Moment(Lying([0, 1, 0], KEY5, None, [2]), m3.contents, map[1 := r], []);
    m5 := Moment(Lying([0, 1, 1], KEY5, KEY56, []), Written(1, m3.contents, ch), map[1 := Later(ch.req, 1)], [ch]);
    LyingPools();
    LyingHashes();
    assert [5, 6][..1] == [5] && [5, 6][..2] == [5, 6];
    assert m3.reqs[1 := r] == m4.reqs && m4.reqs[1 := Later(ch.req, 1)] == m5.reqs;
    LyingEnter(gate, m3.contents, m3, 1, [5, 6], [1], m4);
    assert Grown(r, [2]) == ch.req;
    LyingExtend(gate, m3.contents, m4, 1, r, x, Lying([0, 1, 1], KEY5, None, []), m5);
    GateChoices(gate, layers, experts, [5, 6]);
    LyingReady(ch, x, layers, experts);
    forall cells, cells', sent | Wrapped(cells, m3.contents, layers, experts) &&
                                 Transported(1, m5.chunks, cells, cells', sent, layers, experts)
      ensures 1 in sent && |sent[1]| == layers && !ExactFor([5, 6], gate, l, sent[1][l], experts)
    {
      LyingSent(gate, layers, experts, l, ch, cells, cells', sent);
      ExactMeans([5, 6], gate, l, sent[1][l], experts);
    }
  }

  lemma LyingBatch(ch: Chunk, x: Exec)
    requires ch == Chunk(1, Req([5, 6], 1, [1, 2]), [x])
    ensures Slots(1, [ch]) == [2] && Execs([ch]) == [x] && InRange(1, 3, [2]) && Tidy(1, [2])
    ensures WriteAll(Nothing(), 1, [2], [x]) == [[], [], [x]]
  {
    hide WriteAll, Slots, Execs;
    OneTokenBlocks();
    OneRow(1, ch);
    assert SlotsOf(1, ch.req, 1) == [2];
    WriteOne(Nothing(), 1, 2, x);
    assert Write(Nothing(), 1, 2, x) == [[], [], [x]];
  }

  lemma LyingReady(ch: Chunk, x: Exec, layers: nat, experts: nat)
    requires ch == Chunk(1, Req([5, 6], 1, [1, 2]), [x]) && x.prefix == [5, 6] && ChoiceOk(x.picks, layers, experts)
    ensures Ready(1, [ch], 3, layers, experts)
  {
    hide Slots, Execs;
    OneTokenBlocks();
    OneRow(1, ch);
    assert SlotsOf(1, ch.req, 1) == [2];
    assert [5, 6][..2] == [5, 6];
    assert TopK(x);
    assert RowOk(1, 3, ch);
  }

  lemma OneRow(bs: Size, ch: Chunk)
    ensures Slots(bs, [ch]) == SlotsOf(bs, ch.req, |ch.execs|) && Execs([ch]) == ch.execs
  {
    hide SlotsOf;
    var rows := [ch];
    assert rows[..|rows| - 1] == [];
    NoRows(bs, []);
    assert [] + ch.execs == ch.execs;
    assert [] + SlotsOf(bs, ch.req, |ch.execs|) == SlotsOf(bs, ch.req, |ch.execs|);
  }

  lemma WriteOne(c: Contents, bs: Size, slot: nat, x: Exec)
    requires Blk(bs, slot) < |c|
    ensures InRange(bs, |c|, [slot]) && WriteAll(c, bs, [slot], [x]) == Write(c, bs, slot, x)
  {
    hide Blk, Off, Write;
    WriteNothing(c, bs);
    var slots, xs := [slot], [x];
    assert slots[..|slots| - 1] == [] && xs[..|xs| - 1] == [];
  }

  /** What is sent counts the second token only. */
  lemma LyingSent(gate: Gate, layers: nat, experts: nat, l: nat, ch: Chunk, cells: Cells, cells': Cells,
                  sent: map<nat, seq<seq<int>>>)
    requires GateOk(gate, layers, experts) && l < layers && |gate([5])| == layers && gate([5])[l] != []
    requires ch == Chunk(1, Req([5, 6], 1, [1, 2]), [GateExec(gate, [5, 6])])
    requires Wrapped(cells, Nothing(), layers, experts)
    requires Transported(1, [ch], cells, cells', sent, layers, experts)
    ensures 1 in sent && |sent[1]| == layers && !ExactRow(GateHistory([5, 6], gate), l, sent[1][l], experts)
  {
    hide Wrapped, Counted, ExactRow, RowSent, GateHistory, GateOk, Slots, Execs, InRange, Tidy, WriteAll;
    var x, y := GateExec(gate, [5, 6]), GateExec(gate, [5]);
    LyingBatch(ch, x);
    CountedIsWritten(cells, cells', Nothing(), 1, [2], [x], layers, experts);
    assert [ch][0] == ch;
    assert Finishes(ch);
    assert ChoiceOk(gate([5]), layers, experts) && ChoiceOk(gate([5, 6]), layers, experts) by {
      GateChoices(gate, layers, experts, [5]);
      GateChoices(gate, layers, experts, [5, 6]);
    }
    LyingCount(gate, layers, experts, l, x, y, cells', sent[1][l]);
  }

  lemma GateChoices(gate: Gate, layers: nat, experts: nat, prefix: seq<int>)
    requires GateOk(gate, layers, experts)
    ensures ChoiceOk(gate(prefix), layers, experts)
  {
  }

  lemma LyingCount(gate: Gate, layers: nat, experts: nat, l: nat, x: Exec, y: Exec, cells: Cells, row: seq<int>)
    requires l < layers && x == GateExec(gate, [5, 6]) && y == GateExec(gate, [5])
    requires ChoiceOk(x.picks, layers, experts) && ChoiceOk(y.picks, layers, experts) && y.picks[l] != []
    requires Wrapped(cells, [[], [], [x]], layers, experts) &&
              RowSent(1, cells, Req([5, 6], 1, [1, 2]), l, row, experts)
    ensures !ExactRow(GateHistory([5, 6], gate), l, row, experts)
  {
    hide Uses, Wrapped, CellSum, Wrap16, Wrap8;
    OneTokenBlocks();
    var c, e: nat := [[], [], [x]], y.picks[l][0];
    assert e < experts && TopK(x);
    assert BlocksOk(1, c);
    assert [1, 2][..2] == [1, 2];
    CellsAreExact(cells, 1, c, layers, experts, [1, 2], l, e);
    LyingUses(c, x, y, l, e);
    UsesBound([x], l, e);
    StoredExactly(Uses([x], l, e));
    assert GateHistory([5, 6], gate) == [y, x] by {
      assert [5, 6][..1] == [5] && [5, 6][..2] == [5, 6];
    }
  }

  lemma LyingUses(c: Contents, x: Exec, y: Exec, l: nat, e: nat)
    requires c == [[], [], [x]] && l < |y.picks| && y.picks[l] != [] && e == y.picks[l][0]
    ensures BlocksUses(c, [1, 2], l, e) == Uses([x], l, e) < Uses([y, x], l, e)
  {
    hide Times, Uses;
    FirstCounts(y, l, e);
    NoUses();
    UsesSnoc([], y, l, e);
    UsesSnoc([y], x, l, e);
    UsesSnoc([], x, l, e);
    assert [] + [y] == [y] && [y] + [x] == [y, x] && [] + [x] == [x];
    var blocks := [1, 2];
    assert blocks[..1] == [1] && [1][..0] == [];
    assert BlocksUses(c, [], l, e) == 0 && BlocksUses(c, [1], l, e) == Uses(c[1], l, e);
    assert BlocksUses(c, blocks, l, e) == BlocksUses(c, [1], l, e) + Uses(c[2], l, e);
  }

  lemma FirstCounts(y: Exec, l: nat, e: nat)
    requires l < |y.picks| && y.picks[l] != [] && e == y.picks[l][0]
    ensures Times(y, l, e) > 0
  {
    assert e in y.picks[l];
  }
}
