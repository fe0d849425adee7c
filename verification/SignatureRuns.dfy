/** The batch of a step and the signatures it sends (vllm/eldr/transport.py).

    A request's prompt is computed in chunks over several steps; position p goes to slot
    p % blockSize of block table[p / blockSize].  A row of the batch is a request together with
    the tokens computed for it.  The signature sent when a prompt is complete is the sum of the
    counts of its blocks, proved to be the exact count of the experts chosen for each token of
    the prompt, whichever request computed it.  What leads to a batch is in PrefixCaching. */
module SignatureRuns {
  import opened Common
  import opened SignatureCounts

  /** A live request: its prompt, how many of its tokens are computed, and its blocks. */
  datatype Req = Req(prompt: seq<int>, computed: nat, table: seq<nat>)

  type Reqs = map<nat, Req>

  // ----- what holds between steps

  /** Every computed token of the prompt is stored where the table says; full blocks hold
      exactly a block of tokens, the last one exactly the rest. */
  ghost predicate Stored(bs: Size, c: Contents, r: Req)
  {
    && r.computed <= |r.prompt|
    && (forall i :: 0 <= i < |r.table| ==> r.table[i] < |c|)
    && (forall p :: 0 <= p < r.computed ==> HoldsAt(bs, c, r, p))
    && Blk(bs, r.computed) <= |r.table|
    && (forall i :: 0 <= i < Blk(bs, r.computed) ==> |c[r.table[i]]| == bs)
    && (Off(bs, r.computed) != 0 ==>
          && Blk(bs, r.computed) < |r.table|
          && |c[r.table[Blk(bs, r.computed)]]| == Off(bs, r.computed))
  }

  ghost predicate HoldsAt(bs: Size, c: Contents, r: Req, p: nat)
    requires p < |r.prompt|
  {
    && Blk(bs, p) < |r.table|
    && r.table[Blk(bs, p)] < |c|
    && Off(bs, p) < |c[r.table[Blk(bs, p)]]|
    && c[r.table[Blk(bs, p)]][Off(bs, p)].prefix == r.prompt[..p + 1]
  }

  /** The blocks a request has yet to write or is writing. */
  ghost predicate Unwritten(bs: Size, r: Req, b: nat)
  {
    exists i :: Blk(bs, r.computed) <= i < |r.table| && r.table[i] == b
  }

  /** A block still to be written belongs to one request, once. */
  ghost predicate Owned(bs: Size, reqs: Reqs)
  {
    && (forall a, b, x :: a in reqs && b in reqs && a != b && Unwritten(bs, reqs[a], x) ==> x !in reqs[b].table)
    && (forall a :: a in reqs ==> OwnOnce(bs, reqs[a]))
  }

  ghost predicate OwnOnce(bs: Size, r: Req)
  {
    forall i, j :: 0 <= i < j < |r.table| && Blk(bs, r.computed) <= j ==> r.table[i] != r.table[j]
  }

  ghost predicate BlocksOk(bs: Size, c: Contents) {
    && (forall b :: 0 <= b < |c| ==> |c[b]| <= bs)
    && (forall b, i :: 0 <= b < |c| && 0 <= i < |c[b]| ==> TopK(c[b][i]))
  }

  ghost predicate Inv(bs: Size, c: Contents, reqs: Reqs)
  {
    && BlocksOk(bs, c)
    && (forall a :: a in reqs ==> Stored(bs, c, reqs[a]))
    && Owned(bs, reqs)
  }

  // ----- one token

  /** The slot of a position; what lies beyond the table never matters. */
  function SlotAt(bs: Size, table: seq<nat>, p: nat): nat {
    if Blk(bs, p) < |table| then table[Blk(bs, p)] * bs + Off(bs, p) else 0
  }

  lemma SlotParts(bs: Size, table: seq<nat>, p: nat)
    requires Blk(bs, p) < |table|
    ensures Blk(bs, SlotAt(bs, table, p)) == table[Blk(bs, p)]
    ensures Off(bs, SlotAt(bs, table, p)) == Off(bs, p) < bs
  {
    var q, o := table[p / bs], p % bs;
    QuotientOf(q, o, bs);
  }

  lemma QuotientOf(q: nat, o: nat, bs: Size)
    requires o < bs
    ensures (q * bs + o) / bs == q && (q * bs + o) % bs == o
  {
    DivisionUnique(q * bs + o, bs, q, o);
  }

  lemma NextPosition(bs: Size, p: nat)
    ensures Off(bs, p) < bs
    ensures Off(bs, p) + 1 < bs ==> Blk(bs, p + 1) == Blk(bs, p) && Off(bs, p + 1) == Off(bs, p) + 1
    ensures Off(bs, p) + 1 == bs ==> Blk(bs, p + 1) == Blk(bs, p) + 1 && Off(bs, p + 1) == 0
  {
    var q, o := p / bs, p % bs;
    assert p == q * bs + o;
    if o + 1 < bs {
      QuotientOf(q, o + 1, bs);
    } else {
      assert p + 1 == (q + 1) * bs + 0;
      QuotientOf(q + 1, 0, bs);
    }
  }

  lemma EarlierPosition(bs: Size, p: nat, q: nat)
    requires p < q
    ensures Blk(bs, p) <= Blk(bs, q)
    ensures Blk(bs, p) == Blk(bs, q) ==> Off(bs, p) < Off(bs, q)
  {
    assert p == (p / bs) * bs + p % bs && q == (q / bs) * bs + q % bs;
    MulMono(q / bs + 1, p / bs, bs);
  }

  /** One more token of a request is computed. */
  lemma TokenStep(bs: Size, c: Contents, reqs: Reqs, a: nat, x: Exec)
    requires Inv(bs, c, reqs) && a in reqs && TopK(x)
    requires reqs[a].computed < |reqs[a].prompt| && Blk(bs, reqs[a].computed) < |reqs[a].table|
    requires x.prefix == reqs[a].prompt[..reqs[a].computed + 1]
    ensures var r := reqs[a];
            var slot := SlotAt(bs, r.table, r.computed);
            && Blk(bs, slot) < |c|
            && Inv(bs, Write(c, bs, slot, x), reqs[a := r.(computed := r.computed + 1)])
  {
    hide Blk, Off, SlotAt, Stored, OwnOnce, BlocksOk, Write, Unwritten;
    var r := reqs[a];
    OwnStep(bs, c, r, x);
    var c', r' := Write(c, bs, SlotAt(bs, r.table, r.computed), x), r.(computed := r.computed + 1);
    var reqs' := reqs[a := r'];
    forall b | b in reqs' ensures Stored(bs, c', reqs'[b]) {
      if b != a {
        OtherStep(bs, c, c', r.table[Blk(bs, r.computed)], reqs[b]);
      }
    }
    OwnedStep(bs, reqs, a);
  }

  /** The token is stored and its block grows by one, after what the request stored there. */
  lemma OwnStep(bs: Size, c: Contents, r: Req, x: Exec)
    requires BlocksOk(bs, c) && Stored(bs, c, r) && OwnOnce(bs, r) && TopK(x)
    requires r.computed < |r.prompt| && Blk(bs, r.computed) < |r.table| && x.prefix == r.prompt[..r.computed + 1]
    ensures var slot := SlotAt(bs, r.table, r.computed);
            var b := r.table[Blk(bs, r.computed)];
            && b < |c| && Blk(bs, slot) == b && Unwritten(bs, r, b)
            && (forall d :: 0 <= d < |c| && d != b ==> Write(c, bs, slot, x)[d] == c[d])
            && BlocksOk(bs, Write(c, bs, slot, x))
            && Stored(bs, Write(c, bs, slot, x), r.(computed := r.computed + 1))
  {
    hide Blk, Off, SlotAt, HoldsAt;
    var p := r.computed;
    SlotParts(bs, r.table, p);
    NextPosition(bs, p);
    var slot, b := SlotAt(bs, r.table, p), r.table[Blk(bs, p)];
    var c', r' := Write(c, bs, slot, x), r.(computed := p + 1);
    assert c'[b] == (if Off(bs, p) == 0 then [] else c[b]) + [x];
    assert |c'[b]| == Off(bs, p) + 1 && c'[b][Off(bs, p)] == x;
    forall q | 0 <= q < p + 1 ensures HoldsAt(bs, c', r', q) {
      PositionKept(bs, c, c', r, x, q);
    }
    forall i | 0 <= i < Blk(bs, p + 1) ensures |c'[r.table[i]]| == bs {
      if i < Blk(bs, p) {
        assert r.table[i] != b;
      }
    }
  }

  lemma PositionKept(bs: Size, c: Contents, c': Contents, r: Req, x: Exec, q: nat)
    requires Stored(bs, c, r) && OwnOnce(bs, r) && q <= r.computed < |r.prompt|
    requires Blk(bs, r.computed) < |r.table| && x.prefix == r.prompt[..r.computed + 1] && |c'| == |c|
    requires var b := r.table[Blk(bs, r.computed)];
             && c'[b] == (if Off(bs, r.computed) == 0 then [] else c[b]) + [x]
             && |c'[b]| == Off(bs, r.computed) + 1
             && forall d :: 0 <= d < |c| && d != b ==> c'[d] == c[d]
    ensures HoldsAt(bs, c', r.(computed := r.computed + 1), q)
  {
    hide Blk, Off;
    if q < r.computed {
      EarlierPosition(bs, q, r.computed);
      assert HoldsAt(bs, c, r, q);
    }
  }

  /** A request that does not use the block sees no change. */
  lemma OtherStep(bs: Size, c: Contents, c': Contents, b: nat, r: Req)
    requires Stored(bs, c, r) && b !in r.table && |c'| == |c|
    requires forall d :: 0 <= d < |c| && d != b ==> c'[d] == c[d]
    ensures Stored(bs, c', r)
  {
    hide Blk, Off, HoldsAt;
    assert forall i :: 0 <= i < |r.table| ==> c'[r.table[i]] == c[r.table[i]];
    forall p | 0 <= p < r.computed ensures HoldsAt(bs, c', r, p) {
      assert HoldsAt(bs, c, r, p);
      HoldsSame(bs, c, r, c', r, p);
    }
  }

  lemma HoldsSame(bs: Size, c: Contents, r: Req, c': Contents, r': Req, p: nat)
    requires p < |r.prompt| && HoldsAt(bs, c, r, p) && r'.prompt == r.prompt && |c'| == |c|
    requires |r.table| <= |r'.table| && forall i :: 0 <= i < |r.table| ==> r'.table[i] == r.table[i]
    requires forall i :: 0 <= i < |r.table| && r.table[i] < |c| ==> c'[r.table[i]] == c[r.table[i]]
    ensures HoldsAt(bs, c', r', p)
  {
    hide Blk, Off;
  }

  lemma OwnedStep(bs: Size, reqs: Reqs, a: nat)
    requires Owned(bs, reqs) && a in reqs
    ensures Owned(bs, reqs[a := reqs[a].(computed := reqs[a].computed + 1)])
  {
    hide Unwritten, OwnOnce;
    var r := reqs[a];
    var reqs' := reqs[a := r.(computed := r.computed + 1)];
    FewerUnwritten(bs, r);
    forall p, q, x | p in reqs' && q in reqs' && p != q && Unwritten(bs, reqs'[p], x) ensures x !in reqs'[q].table {
      assert Unwritten(bs, reqs[p], x);
    }
  }

  lemma FewerUnwritten(bs: Size, r: Req)
    ensures var r' := r.(computed := r.computed + 1);
            && (forall x :: Unwritten(bs, r', x) ==> Unwritten(bs, r, x))
            && (OwnOnce(bs, r) ==> OwnOnce(bs, r'))
  {
    hide Blk;
    var r' := r.(computed := r.computed + 1);
    EarlierPosition(bs, r.computed, r.computed + 1);
    forall x | Unwritten(bs, r', x) ensures Unwritten(bs, r, x) {
      var i :| Blk(bs, r'.computed) <= i < |r'.table| && r'.table[i] == x;
      assert r.table[i] == x;
    }
  }

  // ----- the tokens a step computes for one request

  function SlotsOf(bs: Size, r: Req, n: nat): (s: seq<nat>)
    ensures |s| == n && forall i :: 0 <= i < n ==> s[i] == SlotAt(bs, r.table, r.computed + i)
  {
    seq<nat>(n, i requires 0 <= i < n => SlotAt(bs, r.table, r.computed + i))
  }

  /** The tokens continue the request, within its prompt and the blocks of its table. */
  ghost predicate Continues(bs: Size, r: Req, execs: seq<Exec>)
  {
    && r.computed + |execs| <= |r.prompt|
    && (forall p :: r.computed <= p < r.computed + |execs| ==> Blk(bs, p) < |r.table|)
    && (forall i :: 0 <= i < |execs| ==> TopK(execs[i]) && execs[i].prefix == r.prompt[..r.computed + i + 1])
  }

  function Later(r: Req, n: nat): Req { r.(computed := r.computed + n) }

  /** All of them are computed. */
  lemma {:induction false} PieceStep(bs: Size, c: Contents, reqs: Reqs, a: nat, execs: seq<Exec>, n: nat)
    requires Inv(bs, c, reqs) && a in reqs && Continues(bs, reqs[a], execs) && n <= |execs|
    ensures var slots := SlotsOf(bs, reqs[a], |execs|);
            && InRange(bs, |c|, slots) && InRange(bs, |c|, slots[..n])
            && Inv(bs, WriteAll(c, bs, slots[..n], execs[..n]), reqs[a := Later(reqs[a], n)])
  {
    hide Blk, Off, SlotAt, Inv, Write, WriteAll, TopK;
    var r := reqs[a];
    var slots := SlotsOf(bs, r, |execs|);
    PieceInRange(bs, c, reqs, a, execs);
    if n == 0 {
      assert slots[..0] == [] && execs[..0] == [];
      WriteNothing(c, bs);
      assert reqs[a := Later(r, 0)] == reqs;
    } else {
      PieceStep(bs, c, reqs, a, execs, n - 1);
      WriteAllStep(c, bs, slots, execs, n - 1);
      var c1, reqs1 := WriteAll(c, bs, slots[..n - 1], execs[..n - 1]), reqs[a := Later(r, n - 1)];
      TokenStep(bs, c1, reqs1, a, execs[n - 1]);
      assert reqs1[a := Later(r, n)] == reqs[a := Later(r, n)];
    }
  }

  lemma PieceInRange(bs: Size, c: Contents, reqs: Reqs, a: nat, execs: seq<Exec>)
    requires Inv(bs, c, reqs) && a in reqs && Continues(bs, reqs[a], execs)
    ensures InRange(bs, |c|, SlotsOf(bs, reqs[a], |execs|))
    ensures forall n :: 0 <= n <= |execs| ==> InRange(bs, |c|, SlotsOf(bs, reqs[a], |execs|)[..n])
  {
    hide Blk, Off, SlotAt, BlocksOk, Owned;
    var r := reqs[a];
    assert Stored(bs, c, r);
    var slots := SlotsOf(bs, r, |execs|);
    forall i | 0 <= i < |slots| ensures Blk(bs, slots[i]) < |c| {
      SlotParts(bs, r.table, r.computed + i);
    }
  }

  // ----- a batch

  /** A row of the batch: a request as it was scheduled, and the tokens computed for it. */
  datatype Chunk = Chunk(id: nat, req: Req, execs: seq<Exec>)

  function Execs(rows: seq<Chunk>): seq<Exec> {
    if rows == [] then [] else Execs(rows[..|rows| - 1]) + rows[|rows| - 1].execs
  }

  /** The slot mapping of the batch, row by row. */
  function Slots(bs: Size, rows: seq<Chunk>): (s: seq<nat>)
    ensures |s| == |Execs(rows)|
  {
    if rows == [] then []
    else
      var ch := rows[|rows| - 1];
      Slots(bs, rows[..|rows| - 1]) + SlotsOf(bs, ch.req, |ch.execs|)
  }

  /** The row writes to block b. */
  ghost predicate Writes(bs: Size, ch: Chunk, b: nat) {
    exists j :: 0 <= j < |ch.execs| && Blk(bs, SlotsOf(bs, ch.req, |ch.execs|)[j]) == b
  }

  /** No block is written by two rows. */
  ghost predicate Apart(bs: Size, rows: seq<Chunk>) {
    forall j, k, b :: 0 <= j < k < |rows| && Writes(bs, rows[j], b) ==> !Writes(bs, rows[k], b)
  }

  /** The row has its blocks, n in all, and none of them twice from its first token on. */
  ghost predicate RowOk(bs: Size, n: nat, ch: Chunk) {
    && Continues(bs, ch.req, ch.execs) && OwnOnce(bs, ch.req)
    && InRange(bs, n, SlotsOf(bs, ch.req, |ch.execs|))
  }

  ghost predicate RowsOk(bs: Size, n: nat, rows: seq<Chunk>) {
    Apart(bs, rows) && forall k :: 0 <= k < |rows| ==> RowOk(bs, n, rows[k])
  }

  lemma {:induction false} WriteAllConcat(c: Contents, bs: Size, s: seq<nat>, x: seq<Exec>, s': seq<nat>, x': seq<Exec>)
    requires |s| == |x| && |s'| == |x'| && InRange(bs, |c|, s) && InRange(bs, |c|, s')
    ensures InRange(bs, |c|, s + s')
    ensures WriteAll(c, bs, s + s', x + x') == WriteAll(WriteAll(c, bs, s, x), bs, s', x')
  {
    hide Blk, Off, Write;
    if s' == [] {
      assert s + s' == s && x + x' == x;
    } else {
      var n := |s'| - 1;
      WriteAllConcat(c, bs, s, x, s'[..n], x'[..n]);
      assert (s + s')[..|s| + n] == s + s'[..n] && (x + x')[..|x| + n] == x + x'[..n];
    }
  }

  /** What a block holds after some writes depends only on what it held before. */
  lemma {:induction false} WriteLocal(c: Contents, c': Contents, bs: Size, slots: seq<nat>, xs: seq<Exec>, b: nat)
    requires |slots| == |xs| && |c| == |c'| && InRange(bs, |c|, slots) && b < |c| && c[b] == c'[b]
    ensures WriteAll(c, bs, slots, xs)[b] == WriteAll(c', bs, slots, xs)[b]
  {
    hide Blk, Off;
    if slots != [] {
      WriteLocal(c, c', bs, slots[..|slots| - 1], xs[..|slots| - 1], b);
    }
  }

  lemma RowsParts(bs: Size, n: nat, rows: seq<Chunk>)
    requires RowsOk(bs, n, rows) && rows != []
    ensures var init, ch := rows[..|rows| - 1], rows[|rows| - 1];
            && RowsOk(bs, n, init) && RowOk(bs, n, ch)
            && Slots(bs, rows) == Slots(bs, init) + SlotsOf(bs, ch.req, |ch.execs|)
            && Execs(rows) == Execs(init) + ch.execs
  {
    hide RowOk, Writes;
    var init := rows[..|rows| - 1];
    forall k | 0 <= k < |init| ensures init[k] == rows[k] {}
  }

  lemma {:induction false} RowsInRange(bs: Size, n: nat, rows: seq<Chunk>)
    requires RowsOk(bs, n, rows)
    ensures InRange(bs, n, Slots(bs, rows))
  {
    hide Blk, RowsOk, SlotsOf;
    if rows != [] {
      RowsParts(bs, n, rows);
      RowsInRange(bs, n, rows[..|rows| - 1]);
    }
  }

  /** Adding a row to the batch writes its tokens after all others. */
  lemma RowWritten(bs: Size, c: Contents, rows: seq<Chunk>)
    requires RowsOk(bs, |c|, rows) && rows != []
    ensures var init, ch := rows[..|rows| - 1], rows[|rows| - 1];
            && InRange(bs, |c|, Slots(bs, rows)) && InRange(bs, |c|, Slots(bs, init))
            && InRange(bs, |c|, SlotsOf(bs, ch.req, |ch.execs|))
            && WriteAll(c, bs, Slots(bs, rows), Execs(rows)) ==
               WriteAll(WriteAll(c, bs, Slots(bs, init), Execs(init)), bs, SlotsOf(bs, ch.req, |ch.execs|), ch.execs)
  {
    hide Blk, RowsOk, SlotsOf, WriteAll, InRange, Slots, Execs, Continues, OwnOnce;
    var init, ch := rows[..|rows| - 1], rows[|rows| - 1];
    RowsParts(bs, |c|, rows);
    RowsInRange(bs, |c|, rows);
    RowsInRange(bs, |c|, init);
    WriteAllConcat(c, bs, Slots(bs, init), Execs(init), SlotsOf(bs, ch.req, |ch.execs|), ch.execs);
  }

  lemma NotWritten(bs: Size, c: Contents, ch: Chunk, b: nat)
    requires RowOk(bs, |c|, ch) && b < |c| && !Writes(bs, ch, b)
    ensures InRange(bs, |c|, SlotsOf(bs, ch.req, |ch.execs|))
    ensures WriteAll(c, bs, SlotsOf(bs, ch.req, |ch.execs|), ch.execs)[b] == c[b]
  {
    hide Blk, Off, SlotsOf, WriteAll;
    BlockUntouched(c, bs, SlotsOf(bs, ch.req, |ch.execs|), ch.execs, b);
  }

  /** A block no row writes is unchanged by the batch. */
  lemma {:induction false} BatchUntouched(bs: Size, c: Contents, rows: seq<Chunk>, b: nat)
    requires RowsOk(bs, |c|, rows) && b < |c| && forall k :: 0 <= k < |rows| ==> !Writes(bs, rows[k], b)
    ensures InRange(bs, |c|, Slots(bs, rows))
    ensures WriteAll(c, bs, Slots(bs, rows), Execs(rows))[b] == c[b]
  {
    hide Blk, RowsOk, RowOk, WriteAll, InRange, Slots, Execs, Writes, SlotsOf;
    if rows == [] {
      NoRows(bs, c);
    } else {
      RowsParts(bs, |c|, rows);
      RowWritten(bs, c, rows);
      BatchUntouched(bs, c, rows[..|rows| - 1], b);
      NotWritten(bs, WriteAll(c, bs, Slots(bs, rows[..|rows| - 1]), Execs(rows[..|rows| - 1])), rows[|rows| - 1], b);
    }
  }

  lemma NoRows(bs: Size, c: Contents)
    ensures Slots(bs, []) == [] && Execs([]) == [] && InRange(bs, |c|, [])
    ensures WriteAll(c, bs, [], []) == c
  {
  }

  /** A block some row writes holds after the batch what that row alone makes of it. */
  lemma {:induction false} BatchBlock(bs: Size, c: Contents, rows: seq<Chunk>, k: nat, b: nat)
    requires RowsOk(bs, |c|, rows) && b < |c| && k < |rows| && Writes(bs, rows[k], b)
    ensures InRange(bs, |c|, Slots(bs, rows)) && InRange(bs, |c|, SlotsOf(bs, rows[k].req, |rows[k].execs|))
    ensures WriteAll(c, bs, Slots(bs, rows), Execs(rows))[b] ==
            WriteAll(c, bs, SlotsOf(bs, rows[k].req, |rows[k].execs|), rows[k].execs)[b]
  {
    hide Blk, WriteAll, InRange, Slots, Execs, Writes, SlotsOf, Continues, OwnOnce;
    var init, ch := rows[..|rows| - 1], rows[|rows| - 1];
    RowsParts(bs, |c|, rows);
    RowWritten(bs, c, rows);
    var c1 := WriteAll(c, bs, Slots(bs, init), Execs(init));
    if k == |rows| - 1 {
      forall j | 0 <= j < |init| ensures !Writes(bs, init[j], b) {
        assert init[j] == rows[j];
      }
      BatchUntouched(bs, c, init, b);
      WriteLocal(c, c1, bs, SlotsOf(bs, ch.req, |ch.execs|), ch.execs, b);
    } else {
      assert init[k] == rows[k];
      BatchBlock(bs, c, init, k, b);
      NotWritten(bs, c1, ch, b);
    }
  }

  // ----- the order of the rows

  /** A rearrangement of n rows. */
  ghost predicate Permutes(perm: seq<nat>, n: nat) {
    && |perm| == n && Distinct(perm)
    && (forall i :: 0 <= i < n ==> perm[i] < n)
    && (forall k :: 0 <= k < n ==> k in perm)
  }

  function Reordered(rows: seq<Chunk>, perm: seq<nat>): (r: seq<Chunk>)
    requires forall i :: 0 <= i < |perm| ==> perm[i] < |rows|
    ensures |r| == |perm| && forall i :: 0 <= i < |perm| ==> r[i] == rows[perm[i]]
  {
    seq(|perm|, i requires 0 <= i < |perm| => rows[perm[i]])
  }

  lemma ReorderedOk(bs: Size, n: nat, rows: seq<Chunk>, perm: seq<nat>)
    requires RowsOk(bs, n, rows) && Permutes(perm, |rows|)
    ensures RowsOk(bs, n, Reordered(rows, perm))
  {
    hide RowOk, Writes;
    var r := Reordered(rows, perm);
    forall j, k, b | 0 <= j < k < |r| && Writes(bs, r[j], b) ensures !Writes(bs, r[k], b) {
      assert perm[j] != perm[k] && r[j] == rows[perm[j]] && r[k] == rows[perm[k]];
    }
  }

  /** The order of the rows does not matter. */
  lemma OrderIrrelevant(bs: Size, c: Contents, rows: seq<Chunk>, perm: seq<nat>)
    requires RowsOk(bs, |c|, rows) && Permutes(perm, |rows|)
    ensures var r := Reordered(rows, perm);
            && InRange(bs, |c|, Slots(bs, rows)) && InRange(bs, |c|, Slots(bs, r))
            && WriteAll(c, bs, Slots(bs, r), Execs(r)) == WriteAll(c, bs, Slots(bs, rows), Execs(rows))
  {
    hide WriteAll, InRange, Slots, Execs, Writes, SlotsOf, RowOk, Apart;
    var r := Reordered(rows, perm);
    ReorderedOk(bs, |c|, rows, perm);
    RowsInRange(bs, |c|, rows);
    RowsInRange(bs, |c|, r);
    forall b | 0 <= b < |c|
      ensures WriteAll(c, bs, Slots(bs, r), Execs(r))[b] == WriteAll(c, bs, Slots(bs, rows), Execs(rows))[b]
    {
      if k :| 0 <= k < |rows| && Writes(bs, rows[k], b) {
        assert k in perm;
        var i :| 0 <= i < |perm| && perm[i] == k;
        assert r[i] == rows[k];
        BatchBlock(bs, c, rows, k, b);
        BatchBlock(bs, c, r, i, b);
      } else {
        BatchUntouched(bs, c, rows, b);
        BatchUntouched(bs, c, r, b);
      }
    }
  }

  // ----- the batch is tidy

  lemma TidyPiece(bs: Size, r: Req, n: nat)
    requires OwnOnce(bs, r) && forall p :: r.computed <= p < r.computed + n ==> Blk(bs, p) < |r.table|
    ensures Tidy(bs, SlotsOf(bs, r, n))
  {
    hide Blk, Off, SlotAt, OwnOnce;
    var slots := SlotsOf(bs, r, n);
    forall i, j | 0 <= i <= j < |slots| && Blk(bs, slots[i]) == Blk(bs, slots[j])
      ensures slots[j] == slots[i] + (j - i)
      ensures forall m :: i <= m <= j ==> Blk(bs, slots[m]) == Blk(bs, slots[i])
    {
      SamePosition(bs, r, r.computed + i, r.computed + j);
      forall m | i <= m <= j ensures Blk(bs, slots[m]) == Blk(bs, slots[i]) {
        SlotParts(bs, r.table, r.computed + m);
        SlotParts(bs, r.table, r.computed + i);
        NotLater(bs, r.computed + i, r.computed + m);
        NotLater(bs, r.computed + m, r.computed + j);
      }
    }
  }

  lemma NotLater(bs: Size, p: nat, q: nat)
    ensures p <= q ==> Blk(bs, p) <= Blk(bs, q)
  {
    if p < q {
      EarlierPosition(bs, p, q);
    }
  }

  /** Two positions of a request in one block have consecutive slots. */
  lemma SamePosition(bs: Size, r: Req, p: nat, q: nat)
    requires OwnOnce(bs, r) && r.computed <= p <= q && Blk(bs, p) < |r.table| && Blk(bs, q) < |r.table|
    requires Blk(bs, SlotAt(bs, r.table, p)) == Blk(bs, SlotAt(bs, r.table, q))
    ensures Blk(bs, p) == Blk(bs, q)
    ensures SlotAt(bs, r.table, q) == SlotAt(bs, r.table, p) + (q - p)
  {
    hide Blk, Off;
    SlotParts(bs, r.table, p);
    SlotParts(bs, r.table, q);
    NotLater(bs, r.computed, p);
    NotLater(bs, p, q);
    OffsetInBlock(bs, p, q);
  }

  lemma TidyConcat(bs: Size, s: seq<nat>, s': seq<nat>)
    requires Tidy(bs, s) && Tidy(bs, s')
    requires forall i, j :: 0 <= i < |s| && 0 <= j < |s'| ==> Blk(bs, s[i]) != Blk(bs, s'[j])
    ensures Tidy(bs, s + s')
  {
    hide Blk;
    var t := s + s';
    forall i, j | 0 <= i <= j < |t| && Blk(bs, t[i]) == Blk(bs, t[j])
      ensures t[j] == t[i] + (j - i) && forall m :: i <= m <= j ==> Blk(bs, t[m]) == Blk(bs, t[i])
    {
      assert j < |s| || i >= |s|;
      if i >= |s| {
        assert t[i] == s'[i - |s|] && t[j] == s'[j - |s|];
      }
    }
  }

  lemma UnwrittenInTable(bs: Size, r: Req, b: nat)
    ensures Unwritten(bs, r, b) ==> b in r.table
  {
  }

  lemma PieceOwner(bs: Size, r: Req, n: nat, j: nat)
    requires j < n && forall p :: r.computed <= p < r.computed + n ==> Blk(bs, p) < |r.table|
    ensures Unwritten(bs, r, Blk(bs, SlotsOf(bs, r, n)[j]))
  {
    hide Blk, SlotAt;
    var p := r.computed + j;
    SlotParts(bs, r.table, p);
    NotLater(bs, r.computed, p);
    assert r.table[Blk(bs, p)] == Blk(bs, SlotsOf(bs, r, n)[j]);
  }

  /** The blocks a row writes are ones its request has yet to write. */
  lemma WritesOwn(bs: Size, ch: Chunk, b: nat)
    requires Continues(bs, ch.req, ch.execs) && Writes(bs, ch, b)
    ensures Unwritten(bs, ch.req, b) && b in ch.req.table
  {
    hide Blk, SlotAt, TopK;
    var j :| 0 <= j < |ch.execs| && Blk(bs, SlotsOf(bs, ch.req, |ch.execs|)[j]) == b;
    PieceOwner(bs, ch.req, |ch.execs|, j);
    UnwrittenInTable(bs, ch.req, b);
  }

  /** The kernel's assumption holds of the batch: tokens of one block are neighbours. */
  lemma {:induction false} TidyBatch(bs: Size, n: nat, rows: seq<Chunk>)
    requires RowsOk(bs, n, rows)
    ensures Tidy(bs, Slots(bs, rows))
  {
    hide Blk, SlotAt, Tidy, InRange, OwnOnce, Writes;
    if rows == [] {
      TidyNothing(bs);
    } else {
      var init, ch := rows[..|rows| - 1], rows[|rows| - 1];
      RowsParts(bs, n, rows);
      TidyBatch(bs, n, init);
      TidyPiece(bs, ch.req, |ch.execs|);
      var s, s' := Slots(bs, init), SlotsOf(bs, ch.req, |ch.execs|);
      forall i, j | 0 <= i < |s| && 0 <= j < |s'| ensures Blk(bs, s[i]) != Blk(bs, s'[j]) {
        var k := SlotOwner(bs, init, i);
        assert init[k] == rows[k];
        WritesAt(bs, ch, j);
      }
      TidyConcat(bs, s, s');
    }
  }

  lemma WritesAt(bs: Size, ch: Chunk, j: nat)
    requires j < |ch.execs|
    ensures Writes(bs, ch, Blk(bs, SlotsOf(bs, ch.req, |ch.execs|)[j]))
  {
  }

  /** Every slot of the batch belongs to a row. */
  lemma {:induction false} SlotOwner(bs: Size, rows: seq<Chunk>, i: nat) returns (k: nat)
    requires i < |Slots(bs, rows)|
    ensures k < |rows| && Writes(bs, rows[k], Blk(bs, Slots(bs, rows)[i]))
  {
    hide Blk, Writes, SlotsOf;
    var n := |rows| - 1;
    var before := Slots(bs, rows[..n]);
    if i < |before| {
      k := SlotOwner(bs, rows[..n], i);
    } else {
      k := n;
      WritesAt(bs, rows[n], i - |before|);
    }
  }

  lemma TidyNothing(bs: Size)
    ensures Tidy(bs, [])
  {
  }

  // ----- the signature

  /** The computed token at a position of the prompt. */
  ghost function TokenAt(bs: Size, c: Contents, r: Req, p: nat): Exec
    requires p < |r.prompt| && HoldsAt(bs, c, r, p)
  {
    c[r.table[Blk(bs, p)]][Off(bs, p)]
  }

  ghost predicate HoldsAll(bs: Size, c: Contents, r: Req)
  {
    r.computed <= |r.prompt| && forall p :: 0 <= p < r.computed ==> HoldsAt(bs, c, r, p)
  }

  /** The computed tokens that serve a request, in the order of its prompt. */
  ghost function History(bs: Size, c: Contents, r: Req): (h: seq<Exec>)
    requires HoldsAll(bs, c, r)
    ensures |h| == r.computed && forall p :: 0 <= p < r.computed ==> h[p] == TokenAt(bs, c, r, p)
  {
    seq(r.computed, p requires 0 <= p < r.computed => TokenAt(bs, c, r, p))
  }

  ghost function BlocksUses(c: Contents, blocks: seq<nat>, l: nat, e: nat): nat
    requires forall i :: 0 <= i < |blocks| ==> blocks[i] < |c|
  {
    if blocks == [] then 0
    else BlocksUses(c, blocks[..|blocks| - 1], l, e) + Uses(c[blocks[|blocks| - 1]], l, e)
  }

  /** The position at which block k starts. */
  ghost function StartOf(bs: Size, k: nat): nat { k * bs }

  lemma Starts(bs: Size, k: nat, n: nat)
    ensures StartOf(bs, 0) == 0 && StartOf(bs, k + 1) == StartOf(bs, k) + bs
    ensures n == StartOf(bs, Blk(bs, n)) + Off(bs, n) && Off(bs, n) < bs
    ensures k <= Blk(bs, n) ==> StartOf(bs, k) <= n
  {
    assert n == (n / bs) * bs + n % bs;
    MulMono(k, n / bs, bs);
  }

  /** The first k blocks hold the tokens before the start of block k. */
  lemma {:induction false} FullBlocks(bs: Size, c: Contents, r: Req, k: nat, l: nat, e: nat)
    requires Stored(bs, c, r) && k <= Blk(bs, r.computed)
    ensures k <= |r.table| && StartOf(bs, k) <= r.computed
    ensures BlocksUses(c, r.table[..k], l, e) == Uses(History(bs, c, r)[..StartOf(bs, k)], l, e)
  {
    hide Uses, HoldsAt, StartOf, Blk, Off;
    Starts(bs, k, r.computed);
    var h := History(bs, c, r);
    if k == 0 {
      assert r.table[..0] == [] && h[..0] == [];
      NoUses();
    } else {
      assert r.table[k - 1] < |c|;
      FullBlocks(bs, c, r, k - 1, l, e);
      Starts(bs, k - 1, r.computed);
      BlockOfHistory(bs, c, r, k - 1, bs);
      var a, b := StartOf(bs, k - 1), StartOf(bs, k);
      assert h[..b] == h[..a] + h[a..b];
      UsesConcat(h[..a], c[r.table[k - 1]], l, e);
      assert r.table[..k][..k - 1] == r.table[..k - 1];
    }
  }

  /** Block k holds the tokens from its start on. */
  lemma BlockOfHistory(bs: Size, c: Contents, r: Req, k: nat, n: nat)
    requires Stored(bs, c, r) && k < |r.table| && n <= bs && StartOf(bs, k) + n <= r.computed
    requires |c[r.table[k]]| == n
    ensures History(bs, c, r)[StartOf(bs, k)..StartOf(bs, k) + n] == c[r.table[k]]
  {
    hide HoldsAt;
    var h, a := History(bs, c, r), StartOf(bs, k);
    forall i | 0 <= i < n ensures h[a..a + n][i] == c[r.table[k]][i] {
      QuotientOf(k, i, bs);
      assert h[a + i] == TokenAt(bs, c, r, a + i);
    }
  }

  lemma BlocksNeeded(bs: Size, n: nat)
    ensures BlocksFor(bs, n) == if Off(bs, n) == 0 then Blk(bs, n) else Blk(bs, n) + 1
  {
    var q, o := n / bs, n % bs;
    assert n == q * bs + o;
    if o == 0 {
      DivisionUnique(n + bs - 1, bs, q, bs - 1);
    } else {
      assert n + bs - 1 == (q + 1) * bs + (o - 1);
      DivisionUnique(n + bs - 1, bs, q + 1, o - 1);
    }
  }

  /** The blocks of a request count exactly the tokens of its prompt. */
  lemma BlocksAreHistory(bs: Size, c: Contents, r: Req, l: nat, e: nat)
    requires Stored(bs, c, r)
    ensures BlocksFor(bs, r.computed) <= |r.table|
    ensures BlocksUses(c, r.table[..BlocksFor(bs, r.computed)], l, e) == Uses(History(bs, c, r), l, e)
  {
    hide Uses, HoldsAt, BlocksFor, StartOf, Blk, Off;
    var h := History(bs, c, r);
    var q, o := Blk(bs, r.computed), Off(bs, r.computed);
    Starts(bs, q, r.computed);
    BlocksNeeded(bs, r.computed);
    FullBlocks(bs, c, r, q, l, e);
    var a := StartOf(bs, q);
    if o == 0 {
      assert h[..a] == h;
    } else {
      BlockOfHistory(bs, c, r, q, o);
      assert h == h[..a] + h[a..a + o];
      UsesConcat(h[..a], c[r.table[q]], l, e);
      assert r.table[..q + 1][..q] == r.table[..q];
    }
  }

  /** The stored cells of well-sized blocks add up to the exact counts. */
  lemma {:induction false} CellsAreExact(cells: Cells, bs: Size, c: Contents, layers: nat, experts: nat,
                                         blocks: seq<nat>, l: nat, e: nat)
    requires bs < 128 && Wrapped(cells, c, layers, experts) && BlocksOk(bs, c)
    requires l < layers && e < experts && forall i :: 0 <= i < |blocks| ==> blocks[i] < |c|
    ensures CellSum(cells, blocks, l, e) == BlocksUses(c, blocks, l, e)
  {
    hide Uses, Wrap8;
    if blocks != [] {
      CellsAreExact(cells, bs, c, layers, experts, blocks[..|blocks| - 1], l, e);
      var b := blocks[|blocks| - 1];
      assert RowIs(cells[b][l], c[b], l, experts);
      UsesBound(c[b], l, e);
      StoredExactly(Uses(c[b], l, e));
    }
  }

  lemma HistoryTopK(bs: Size, c: Contents, r: Req)
    requires Stored(bs, c, r) && BlocksOk(bs, c)
    ensures forall p :: 0 <= p < r.computed ==> TopK(History(bs, c, r)[p])
  {
    hide Blk, Off, TopK;
    forall p | 0 <= p < r.computed ensures TopK(History(bs, c, r)[p]) {
      assert HoldsAt(bs, c, r, p);
    }
  }

  // ----- what is sent

  /** A sent row of one layer: the cells of the request's blocks, summed as 16 bits. */
  ghost predicate RowSent(bs: Size, cells: Cells, r: Req, l: nat, row: seq<int>, experts: nat)
  {
    && BlocksFor(bs, |r.prompt|) <= |r.table| && |row| == experts
    && forall e :: 0 <= e < experts ==>
         row[e] == Wrap16(CellSum(cells, r.table[..BlocksFor(bs, |r.prompt|)], l, e))
  }

  ghost predicate Sent(bs: Size, cells: Cells, r: Req, sig: seq<seq<int>>, layers: nat, experts: nat)
  {
    |sig| == layers && forall l :: 0 <= l < layers ==> RowSent(bs, cells, r, l, sig[l], experts)
  }

  /** For each expert, the tokens of the history that chose it. */
  ghost predicate ExactRow(h: seq<Exec>, l: nat, row: seq<int>, experts: nat) {
    |row| == experts && forall e :: 0 <= e < experts ==> row[e] == Uses(h, l, e)
  }

  /** What is sent for a computed prompt is exact: with blocks below 128 tokens no cell
      overflows, and with prompts up to 32767 tokens no sum does. */
  lemma SentExact(bs: Size, cells: Cells, c: Contents, r: Req, l: nat, row: seq<int>, layers: nat, experts: nat)
    requires bs < 128 && Wrapped(cells, c, layers, experts) && BlocksOk(bs, c) && Stored(bs, c, r)
    requires r.computed == |r.prompt| <= 32767 && l < layers && RowSent(bs, cells, r, l, row, experts)
    ensures ExactRow(History(bs, c, r), l, row, experts)
  {
    hide Blk, Off, HoldsAt, Uses, Wrap8, Wrap16, BlocksOk, TopK, Wrapped, CellSum, BlocksUses, BlocksFor;
    var h := History(bs, c, r);
    forall e | 0 <= e < experts ensures row[e] == Uses(h, l, e) {
      BlocksAreHistory(bs, c, r, l, e);
      CellsAreExact(cells, bs, c, layers, experts, r.table[..BlocksFor(bs, |r.prompt|)], l, e);
      HistoryTopK(bs, c, r);
      UsesBound(h, l, e);
      StoredExactly(Uses(h, l, e));
    }
  }

  /** The sums of one completed request, layer by layer. */
  method SendRow(cells: Cells, bs: Size, r: Req, layers: nat, experts: nat) returns (sig: seq<seq<int>>)
    requires Shaped(cells, |cells|, layers, experts)
    requires BlocksFor(bs, |r.prompt|) <= |r.table| && forall i :: 0 <= i < |r.table| ==> r.table[i] < |cells|
    ensures Sent(bs, cells, r, sig, layers, experts)
  {
    hide Wrap16, CellSum, BlocksFor;
    sig := [];
    for l := 0 to layers
      invariant |sig| == l && forall k :: 0 <= k < l ==> RowSent(bs, cells, r, k, sig[k], experts)
    {
      var row := SumRow(cells, bs, r.table, |r.prompt|, false, l, layers, experts);
      sig := sig + [row];
    }
  }

  // ----- the transport of a step

  datatype Result<T> = Ok(value: T) | ValueError

  /** The step computes the last token of the request's prompt. */
  predicate Finishes(ch: Chunk) {
    ch.execs != [] && ch.req.computed + |ch.execs| == |ch.req.prompt|
  }

  /** No token after the prompt is scheduled on this producer. */
  ghost predicate PrefillOnly(rows: seq<Chunk>) {
    forall k :: 0 <= k < |rows| ==>
      rows[k].execs == [] || rows[k].req.computed + |rows[k].execs| <= |rows[k].req.prompt|
  }

  /** finishing_rows. */
  method FinishingRows(rows: seq<Chunk>) returns (r: Result<seq<nat>>)
    ensures r.Ok? <==> PrefillOnly(rows)
    ensures r.Ok? ==> forall k :: k in r.value <==> 0 <= k < |rows| && Finishes(rows[k])
    ensures r.Ok? ==> forall i, j :: 0 <= i < j < |r.value| ==> r.value[i] < r.value[j]
  {
    var found: seq<nat> := [];
    for k := 0 to |rows|
      invariant PrefillOnly(rows[..k])
      invariant forall i :: i in found <==> 0 <= i < k && Finishes(rows[i])
      invariant forall i, j :: 0 <= i < j < |found| ==> found[i] < found[j]
      invariant forall i :: 0 <= i < |found| ==> found[i] in found
    {
      var count := |rows[k].execs|;
      if count == 0 {
        continue;
      }
      var completed, prompt := rows[k].req.computed, |rows[k].req.prompt|;
      if completed + count > prompt {
        return ValueError;
      }
      if completed + count == prompt {
        found := found + [k];
      }
    }
    assert rows[..|rows|] == rows;
    return Ok(found);
  }

  /** A row that completes its prompt has all blocks of the prompt. */
  lemma TableComplete(bs: Size, n: nat, ch: Chunk)
    requires RowOk(bs, n, ch) && Finishes(ch)
    ensures BlocksFor(bs, |ch.req.prompt|) <= |ch.req.table|
  {
    hide Blk, Off, BlocksFor, InRange, OwnOnce;
    var p := |ch.req.prompt| - 1;
    assert ch.req.computed <= p < ch.req.computed + |ch.execs|;
    assert Blk(bs, p) < |ch.req.table|;
    BlocksNeeded(bs, p + 1);
    NextPosition(bs, p);
  }

  /** What a step may be given: rows of different requests that write no block twice, with
      choices of existing experts. */
  ghost predicate Ready(bs: Size, rows: seq<Chunk>, blocks: nat, layers: nat, experts: nat) {
    && RowsOk(bs, blocks, rows) && PicksOk(Execs(rows), layers, experts)
    && (forall i, j :: 0 <= i < j < |rows| ==> rows[i].id != rows[j].id)
    && (forall k, i :: 0 <= k < |rows| && 0 <= i < |rows[k].req.table| ==> rows[k].req.table[i] < blocks)
  }

  /** What a step leaves: the tokens of its rows are counted, and the sums of the blocks are sent
      for every request whose prompt it completes, and for no other. */
  ghost predicate Transported(bs: Size, rows: seq<Chunk>, cells: Cells, cells': Cells,
                              sent: map<nat, seq<seq<int>>>, layers: nat, experts: nat)
  {
    && Counted(cells, cells', bs, Slots(bs, rows), Execs(rows), layers, experts)
    && (forall k :: 0 <= k < |rows| ==> (rows[k].id in sent <==> Finishes(rows[k])))
    && (forall a :: a in sent ==> exists k :: 0 <= k < |rows| && rows[k].id == a)
    && (forall k :: 0 <= k < |rows| && rows[k].id in sent ==>
          Sent(bs, cells', rows[k].req, sent[rows[k].id], layers, experts))
  }

  /** prepare: count the experts of the step, then send the sums of every request whose prompt it
      completes.  A token after the prompt is refused before anything is counted. */
  method Prepare(esc: array<seq<seq<int>>>, bs: Size, rows: seq<Chunk>, order: seq<ProgramId>, layers: nat,
                 experts: nat)
    returns (r: Result<map<nat, seq<seq<int>>>>)
    requires Shaped(esc[..], esc.Length, layers, experts)
    requires PrefillOnly(rows) ==> Ready(bs, rows, esc.Length, layers, experts) && IsGrid(order, |Execs(rows)|, layers)
    modifies esc
    ensures r.Ok? <==> PrefillOnly(rows)
    ensures !r.Ok? ==> esc[..] == old(esc[..])
    ensures r.Ok? ==> Transported(bs, rows, old(esc[..]), esc[..], r.value, layers, experts)
  {
    hide PicksOk, Slots, Execs, Sent, InRange, IsGrid, Blk, RowOk, Apart, Tidy, PrefillOnly, Counted, BlocksFor,
        Finishes;
    var finishing := FinishingRows(rows);
    if !finishing.Ok? {
      return ValueError;
    }
    RowsInRange(bs, esc.Length, rows);
    TidyBatch(bs, esc.Length, rows);
    ReduceCounts(esc, bs, Slots(bs, rows), Execs(rows), order, layers, experts);
    ghost var cells := esc[..];
    CountedShape(old(esc[..]), cells, bs, Slots(bs, rows), Execs(rows), layers, experts);
    var sent: map<nat, seq<seq<int>>> := map[];
    for i := 0 to |finishing.value|
      invariant esc[..] == cells
      invariant forall a :: a in sent ==> exists k :: 0 <= k < |rows| && rows[k].id == a && k in finishing.value[..i]
      invariant forall k :: k in finishing.value[..i] ==>
                  k < |rows| && rows[k].id in sent && Sent(bs, cells, rows[k].req, sent[rows[k].id], layers, experts)
    {
      var k := finishing.value[i];
      assert k in finishing.value;
      TableComplete(bs, esc.Length, rows[k]);
      var sig := SendRow(esc[..], bs, rows[k].req, layers, experts);
      assert finishing.value[..i + 1] == finishing.value[..i] + [k];
      sent := sent[rows[k].id := sig];
    }
    assert finishing.value[..|finishing.value|] == finishing.value;
    return Ok(sent);
  }

  lemma CountedShape(cells: Cells, cells': Cells, bs: Size, slots: seq<nat>, xs: seq<Exec>, layers: nat, experts: nat)
    requires Counted(cells, cells', bs, slots, xs, layers, experts)
    ensures Shaped(cells', |cells|, layers, experts)
  {
  }

  // ----- requests come, get blocks and go

  /** A new request: the blocks of its computed prefix hold it, as whole blocks, and no block
      that anyone has yet to write is shared. */
  ghost predicate Admissible(bs: Size, c: Contents, reqs: Reqs, req: Req)
  {
    && Stored(bs, c, req) && OwnOnce(bs, req)
    && (forall a, x :: a in reqs && Unwritten(bs, reqs[a], x) ==> x !in req.table)
    && (forall a, x :: a in reqs && Unwritten(bs, req, x) ==> x !in reqs[a].table)
  }

  lemma AdmitKeeps(bs: Size, c: Contents, reqs: Reqs, id: nat, req: Req)
    requires Inv(bs, c, reqs) && id !in reqs && Admissible(bs, c, reqs, req)
    ensures Inv(bs, c, reqs[id := req])
  {
    hide Stored, Unwritten, OwnOnce, BlocksOk;
  }

  lemma DropKeeps(bs: Size, c: Contents, reqs: Reqs, id: nat)
    requires Inv(bs, c, reqs)
    ensures Inv(bs, c, reqs - {id})
  {
    hide Stored, Unwritten, OwnOnce, BlocksOk;
  }

  /** New blocks are in no table. */
  ghost predicate Allocatable(c: Contents, reqs: Reqs, blocks: seq<nat>) {
    && Distinct(blocks)
    && (forall i :: 0 <= i < |blocks| ==> blocks[i] < |c|)
    && (forall a, i :: a in reqs && 0 <= i < |blocks| ==> blocks[i] !in reqs[a].table)
  }

  lemma GrowKeeps(bs: Size, c: Contents, reqs: Reqs, id: nat, blocks: seq<nat>)
    requires Inv(bs, c, reqs) && id in reqs && Allocatable(c, reqs, blocks)
    ensures Inv(bs, c, reqs[id := reqs[id].(table := reqs[id].table + blocks)])
  {
    hide BlocksOk, Blk, Off;
    var r := reqs[id];
    var r' := r.(table := r.table + blocks);
    var reqs' := reqs[id := r'];
    assert Stored(bs, c, r) && OwnOnce(bs, r);
    StoredGrown(bs, c, r, blocks);
    OwnOnceGrown(bs, r, blocks);
    forall x | Unwritten(bs, r', x) ensures Unwritten(bs, r, x) || x in blocks {
      UnwrittenGrown(bs, r, blocks, x);
    }
    hide Unwritten, Stored, OwnOnce;
    forall a, b, x | a in reqs' && b in reqs' && a != b && Unwritten(bs, reqs'[a], x) ensures x !in reqs'[b].table {
      assert a != id ==> Unwritten(bs, reqs[a], x);
      if a != id && b == id {
        UnwrittenInTable(bs, reqs[a], x);
      }
    }
  }

  lemma UnwrittenGrown(bs: Size, r: Req, blocks: seq<nat>, x: nat)
    requires Unwritten(bs, r.(table := r.table + blocks), x)
    ensures Unwritten(bs, r, x) || x in blocks
  {
    hide Blk;
    var t := r.table + blocks;
    var i :| Blk(bs, r.computed) <= i < |t| && t[i] == x;
    if i < |r.table| {
      assert r.table[i] == x;
    } else {
      assert blocks[i - |r.table|] == x;
    }
  }

  lemma StoredGrown(bs: Size, c: Contents, r: Req, blocks: seq<nat>)
    requires Stored(bs, c, r) && forall i :: 0 <= i < |blocks| ==> blocks[i] < |c|
    ensures Stored(bs, c, r.(table := r.table + blocks))
  {
    hide Blk, Off;
    var r' := r.(table := r.table + blocks);
    forall i | 0 <= i < |r'.table| ensures r'.table[i] < |c| {
      assert i >= |r.table| ==> r'.table[i] == blocks[i - |r.table|];
    }
    assert forall i :: 0 <= i < |r.table| ==> r'.table[i] == r.table[i];
    forall p | 0 <= p < r.computed ensures HoldsAt(bs, c, r', p) {
      assert HoldsAt(bs, c, r, p);
      HoldsSame(bs, c, r, c, r', p);
    }
  }

  lemma OwnOnceGrown(bs: Size, r: Req, blocks: seq<nat>)
    requires OwnOnce(bs, r) && Distinct(blocks) && forall i :: 0 <= i < |blocks| ==> blocks[i] !in r.table
    ensures OwnOnce(bs, r.(table := r.table + blocks))
  {
    hide Blk;
    var r' := r.(table := r.table + blocks);
    forall i, j | 0 <= i < j < |r'.table| && Blk(bs, r'.computed) <= j ensures r'.table[i] != r'.table[j] {
      if j >= |r.table| {
        assert r'.table[j] == blocks[j - |r.table|];
        assert i < |r.table| ==> r.table[i] in r.table;
      }
    }
  }

  // ----- the gate

  /** Every choice is the gate's for that prefix. */
  ghost predicate FromGate(xs: seq<Exec>, gate: seq<int> -> seq<seq<nat>>) {
    forall i :: 0 <= i < |xs| ==> xs[i].picks == gate(xs[i].prefix)
  }

  ghost predicate AllFromGate(c: Contents, gate: seq<int> -> seq<seq<nat>>) {
    forall b :: 0 <= b < |c| ==> FromGate(c[b], gate)
  }

  lemma {:induction false} WriteFromGate(c: Contents, bs: Size, slots: seq<nat>, xs: seq<Exec>,
                                         gate: seq<int> -> seq<seq<nat>>)
    requires |slots| == |xs| && InRange(bs, |c|, slots) && AllFromGate(c, gate) && FromGate(xs, gate)
    ensures AllFromGate(WriteAll(c, bs, slots, xs), gate)
  {
    hide Blk, Off;
    if slots != [] {
      var n := |slots| - 1;
      WriteFromGate(c, bs, slots[..n], xs[..n], gate);
    }
  }

  /** What the gate chooses for every token of a prompt. */
  ghost function GateHistory(prompt: seq<int>, gate: seq<int> -> seq<seq<nat>>): (h: seq<Exec>)
    ensures |h| == |prompt|
    ensures forall p :: 0 <= p < |prompt| ==> h[p] == Exec(prompt[..p + 1], gate(prompt[..p + 1]))
  {
    seq(|prompt|, p requires 0 <= p < |prompt| => Exec(prompt[..p + 1], gate(prompt[..p + 1])))
  }

  lemma HistoryIsGate(bs: Size, c: Contents, r: Req, gate: seq<int> -> seq<seq<nat>>)
    requires HoldsAll(bs, c, r) && AllFromGate(c, gate) && r.computed == |r.prompt|
    ensures History(bs, c, r) == GateHistory(r.prompt, gate)
  {
    hide Blk, Off;
    forall p | 0 <= p < r.computed ensures History(bs, c, r)[p] == GateHistory(r.prompt, gate)[p] {
      assert HoldsAt(bs, c, r, p);
      var b := r.table[Blk(bs, p)];
      assert FromGate(c[b], gate);
      assert c[b][Off(bs, p)].picks == gate(c[b][Off(bs, p)].prefix);
    }
  }
}
