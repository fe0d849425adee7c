/** Expert counts per physical KV block (vllm/eldr/counts.py, vllm/eldr/batch_sum.py).

    A step computes a batch of prefill tokens; token i is stored in slot slots[i], that is in
    block slots[i] / blockSize at offset slots[i] % blockSize.  The kernel runs one program per
    (token, layer).  Only the program of the first token of a block does anything: it counts
    the experts of all tokens of the batch in that block and stores the sum in an 8-bit cell.
    The kernel is proved, for every order of its programs, against writing the tokens one by
    one into blocks that forget their tokens when offset 0 is written. */
module SignatureCounts {

  /** The number of tokens in a block. */
  type Size = n: int | n > 0 witness 1

  /** A computed token: the prefix it ends, and the experts its gate chose in each layer. */
  datatype Exec = Exec(prefix: seq<int>, picks: seq<seq<nat>>)

  /** The tokens of each block since its offset 0 was last written. */
  type Contents = seq<seq<Exec>>

  // ----- stored integers

  function Wrap8(v: int): int { (v + 128) % 256 - 128 }

  function Wrap16(v: int): int { (v + 32768) % 65536 - 32768 }

  /** A stored integer has the right remainder, and fits its bits. */
  lemma WrapIs(v: int)
    ensures -128 <= Wrap8(v) <= 127 && v == Wrap8(v) + 256 * ((v + 128) / 256)
    ensures -32768 <= Wrap16(v) <= 32767 && v == Wrap16(v) + 65536 * ((v + 32768) / 65536)
  {
  }

  lemma Wrap8Add(u: int, v: int)
    ensures Wrap8(u + Wrap8(v)) == Wrap8(u + v)
  {
  }

  // ----- counting

  ghost function Times(x: Exec, l: nat, e: nat): nat {
    if l < |x.picks| then multiset(x.picks[l])[e] else 0
  }

  /** How often expert e was chosen in layer l. */
  ghost function Uses(c: seq<Exec>, l: nat, e: nat): nat {
    if c == [] then 0 else Uses(c[..|c| - 1], l, e) + Times(c[|c| - 1], l, e)
  }

  lemma UsesSnoc(c: seq<Exec>, x: Exec, l: nat, e: nat)
    ensures Uses(c + [x], l, e) == Uses(c, l, e) + Times(x, l, e)
  {
    assert (c + [x])[..|c|] == c;
  }

  lemma {:induction false} UsesConcat(a: seq<Exec>, b: seq<Exec>, l: nat, e: nat)
    ensures Uses(a + b, l, e) == Uses(a, l, e) + Uses(b, l, e)
  {
    if b == [] {
      assert a + b == a;
    } else {
      assert (a + b)[..|a + b| - 1] == a + b[..|b| - 1];
      UsesConcat(a, b[..|b| - 1], l, e);
    }
  }

  // ----- writing token by token

  function Blk(bs: Size, slot: nat): nat
  {
    slot / bs
  }

  function Off(bs: Size, slot: nat): nat
  {
    slot % bs
  }

  ghost predicate InRange(bs: Size, n: nat, slots: seq<nat>)
  {
    forall i :: 0 <= i < |slots| ==> Blk(bs, slots[i]) < n
  }

  ghost function Write(c: Contents, bs: Size, slot: nat, x: Exec): (r: Contents)
    requires Blk(bs, slot) < |c|
    ensures |r| == |c|
  {
    var b := Blk(bs, slot);
    c[b := if Off(bs, slot) == 0 then [x] else c[b] + [x]]
  }

  ghost function WriteAll(c: Contents, bs: Size, slots: seq<nat>, xs: seq<Exec>): (r: Contents)
    requires |slots| == |xs| && InRange(bs, |c|, slots)
    ensures |r| == |c|
  {
    if slots == [] then c
    else
      var n := |slots| - 1;
      Write(WriteAll(c, bs, slots[..n], xs[..n]), bs, slots[n], xs[n])
  }

  lemma WriteNothing(c: Contents, bs: Size)
    ensures WriteAll(c, bs, [], []) == c
  {
  }

  lemma WriteAllStep(c: Contents, bs: Size, slots: seq<nat>, xs: seq<Exec>, n: nat)
    requires |slots| == |xs| && InRange(bs, |c|, slots) && n < |slots|
    ensures InRange(bs, |c|, slots[..n + 1]) && InRange(bs, |c|, slots[..n])
    ensures WriteAll(c, bs, slots[..n + 1], xs[..n + 1]) ==
            Write(WriteAll(c, bs, slots[..n], xs[..n]), bs, slots[n], xs[n])
  {
    hide Blk, Off;
    assert slots[..n + 1][..n] == slots[..n] && xs[..n + 1][..n] == xs[..n];
    assert slots[..n + 1][n] == slots[n] && xs[..n + 1][n] == xs[n];
  }

  // ----- runs of a block in a batch

  /** Tokens of one block are neighbours in the batch and occupy consecutive slots. */
  ghost predicate Tidy(bs: Size, slots: seq<nat>)
  {
    forall i, j :: 0 <= i <= j < |slots| && Blk(bs, slots[i]) == Blk(bs, slots[j]) ==>
      slots[j] == slots[i] + (j - i) && forall m :: i <= m <= j ==> Blk(bs, slots[m]) == Blk(bs, slots[i])
  }

  /** The first token of its block: the only one whose program does anything. */
  predicate Head(bs: Size, slots: seq<nat>, s: nat)
    requires s < |slots|
  {
    s == 0 || Blk(bs, slots[s]) != Blk(bs, slots[s - 1])
  }

  /** The tokens of block b are those in [s, t). */
  ghost predicate IsRun(bs: Size, slots: seq<nat>, s: nat, t: nat)
  {
    && s < t <= |slots|
    && (forall i :: 0 <= i < |slots| ==> (Blk(bs, slots[i]) == Blk(bs, slots[s]) <==> s <= i < t))
    && (forall i :: s <= i < t ==> Off(bs, slots[i]) == Off(bs, slots[s]) + (i - s))
  }

  lemma OffsetInBlock(bs: Size, a: nat, b: nat)
    requires a <= b && Blk(bs, a) == Blk(bs, b)
    ensures Off(bs, b) == Off(bs, a) + (b - a) < bs
  {
    var q := a / bs;
    assert a == q * bs + a % bs && b == q * bs + b % bs;
  }

  lemma Between(bs: Size, slots: seq<nat>, i: int, m: int, j: int)
    requires Tidy(bs, slots)
    ensures 0 <= i <= m <= j < |slots| && Blk(bs, slots[i]) == Blk(bs, slots[j]) ==>
              Blk(bs, slots[m]) == Blk(bs, slots[i])
  {
  }

  lemma RunOf(bs: Size, slots: seq<nat>, s: nat) returns (t: nat)
    requires Tidy(bs, slots) && s < |slots| && Head(bs, slots, s)
    ensures IsRun(bs, slots, s, t) && Off(bs, slots[s]) + (t - s) <= bs
  {
    hide Blk, Off;
    t := s + 1;
    while t < |slots| && Blk(bs, slots[t]) == Blk(bs, slots[s])
      invariant s < t <= |slots|
      invariant forall i :: s <= i < t ==> Blk(bs, slots[i]) == Blk(bs, slots[s])
    {
      t := t + 1;
    }
    forall i | 0 <= i < |slots| && Blk(bs, slots[i]) == Blk(bs, slots[s]) ensures s <= i < t {
      Between(bs, slots, i, s - 1, s);
      Between(bs, slots, s, t, i);
    }
    forall i | s <= i < t ensures Off(bs, slots[i]) == Off(bs, slots[s]) + (i - s) < bs {
      assert slots[i] == slots[s] + (i - s);
      OffsetInBlock(bs, slots[s], slots[i]);
    }
    assert Off(bs, slots[t - 1]) < bs;
  }

  /** What a block holds after n tokens, when its own are those in [s, t). */
  ghost function Holding(was: seq<Exec>, reset: bool, xs: seq<Exec>, s: nat, t: nat, n: nat): seq<Exec>
    requires s < t <= |xs|
  {
    if n <= s then was else (if reset then [] else was) + xs[s..if n <= t then n else t]
  }

  lemma HoldingStep(was: seq<Exec>, reset: bool, xs: seq<Exec>, s: nat, t: nat, n: nat)
    requires s < t <= |xs| && n < |xs|
    ensures Holding(was, reset, xs, s, t, n + 1) ==
            if !(s <= n < t) then Holding(was, reset, xs, s, t, n)
            else if n == s && reset then [xs[n]]
            else Holding(was, reset, xs, s, t, n) + [xs[n]]
  {
    if s <= n < t {
      assert xs[s..n + 1] == xs[s..n] + [xs[n]];
    }
  }

  lemma {:induction false} BlockAfter(c: Contents, bs: Size, slots: seq<nat>, xs: seq<Exec>, s: nat, t: nat, n: nat)
    requires |slots| == |xs| && InRange(bs, |c|, slots) && IsRun(bs, slots, s, t) && n <= |slots|
    ensures InRange(bs, |c|, slots[..n])
    ensures var b := Blk(bs, slots[s]);
            WriteAll(c, bs, slots[..n], xs[..n])[b] == Holding(c[b], Off(bs, slots[s]) == 0, xs, s, t, n)
  {
    hide Blk, Off, WriteAll, Holding;
    var b := Blk(bs, slots[s]);
    if n == 0 {
      assert slots[..0] == [] && xs[..0] == [];
      WriteNothing(c, bs);
      assert Holding(c[b], Off(bs, slots[s]) == 0, xs, s, t, 0) == c[b] by {
        HoldingNothing(c[b], Off(bs, slots[s]) == 0, xs, s, t);
      }
    } else {
      BlockAfter(c, bs, slots, xs, s, t, n - 1);
      WriteAllStep(c, bs, slots, xs, n - 1);
      HoldingStep(c[b], Off(bs, slots[s]) == 0, xs, s, t, n - 1);
    }
  }

  lemma HoldingNothing(was: seq<Exec>, reset: bool, xs: seq<Exec>, s: nat, t: nat)
    requires s < t <= |xs|
    ensures Holding(was, reset, xs, s, t, 0) == was
  {
  }

  lemma {:induction false} BlockUntouched(c: Contents, bs: Size, slots: seq<nat>, xs: seq<Exec>, b: nat)
    requires |slots| == |xs| && InRange(bs, |c|, slots) && b < |c|
    requires forall i :: 0 <= i < |slots| ==> Blk(bs, slots[i]) != b
    ensures WriteAll(c, bs, slots, xs)[b] == c[b]
  {
    hide Blk, Off;
    if slots != [] {
      BlockUntouched(c, bs, slots[..|slots| - 1], xs[..|slots| - 1], b);
    }
  }

  /** What the program of a block's first token has to store. */
  lemma RunCounts(c: Contents, bs: Size, slots: seq<nat>, xs: seq<Exec>, s: nat, t: nat, l: nat, e: nat)
    requires |slots| == |xs| && InRange(bs, |c|, slots) && IsRun(bs, slots, s, t)
    ensures var b := Blk(bs, slots[s]);
            Uses(WriteAll(c, bs, slots, xs)[b], l, e) ==
            Uses(xs[s..t], l, e) + if Off(bs, slots[s]) == 0 then 0 else Uses(c[b], l, e)
  {
    hide Blk, Off, WriteAll;
    BlockAfter(c, bs, slots, xs, s, t, |slots|);
    assert slots[..|slots|] == slots && xs[..|slots|] == xs;
    var b := Blk(bs, slots[s]);
    var base := if Off(bs, slots[s]) == 0 then [] else c[b];
    UsesConcat(base, xs[s..t], l, e);
  }

  // ----- the kernel

  /** Every token has a choice for every layer, and all chosen experts exist. */
  ghost predicate PicksOk(xs: seq<Exec>, layers: nat, experts: nat) {
    && (forall i :: 0 <= i < |xs| ==> |xs[i].picks| == layers)
    && (forall i, l, k :: 0 <= i < |xs| && 0 <= l < layers && 0 <= k < |xs[i].picks[l]| ==> xs[i].picks[l][k] < experts)
  }

  /** A row holds the counts of one layer, expert by expert, as 8 bits. */
  ghost predicate RowIs(row: seq<int>, c: seq<Exec>, l: nat, experts: nat) {
    |row| == experts && forall e :: 0 <= e < experts ==> row[e] == Wrap8(Uses(c, l, e))
  }

  type Cells = seq<seq<seq<int>>>

  ghost predicate Shaped(cells: Cells, blocks: nat, layers: nat, experts: nat) {
    && |cells| == blocks
    && (forall b :: 0 <= b < blocks ==> |cells[b]| == layers)
    && (forall b, l :: 0 <= b < blocks && 0 <= l < layers ==> |cells[b][l]| == experts)
  }

  /** Every row holds the counts of its block. */
  ghost predicate Wrapped(cells: Cells, c: Contents, layers: nat, experts: nat) {
    && Shaped(cells, |c|, layers, experts)
    && forall b, l :: 0 <= b < |c| && 0 <= l < layers ==> RowIs(cells[b][l], c[b], l, experts)
  }

  /** tl.histogram over the valid picks. */
  method Histogram(bs: Size, slots: seq<nat>, xs: seq<Exec>, start: nat, layer: nat, experts: nat, ghost t: nat)
    returns (hist: array<int>)
    requires |slots| == |xs| && IsRun(bs, slots, start, t) && t - start <= bs
    requires forall i :: 0 <= i < |xs| ==> layer < |xs[i].picks|
    requires forall i, k :: 0 <= i < |xs| && 0 <= k < |xs[i].picks[layer]| ==> xs[i].picks[layer][k] < experts
    ensures fresh(hist) && hist.Length == experts
    ensures forall e :: 0 <= e < experts ==> hist[e] == Uses(xs[start..t], layer, e)
  {
    hide Blk, Off, Uses;
    hist := new int[experts](_ => 0);
    NoUses();
    assert xs[start..start] == [];
    for j := 0 to bs
      invariant forall e :: 0 <= e < experts ==>
                  hist[e] == Uses(xs[start..if start + j <= t then start + j else t], layer, e)
    {
      var token := start + j;
      if token < |slots| && Blk(bs, slots[token]) == Blk(bs, slots[start]) {
        assert xs[start..token + 1] == xs[start..token] + [xs[token]];
        AddPicks(hist, xs[start..token], xs[token], layer);
      }
    }
  }

  lemma NoUses()
    ensures forall l, e :: Uses([], l, e) == 0
  {
  }

  method AddPicks(hist: array<int>, ghost c: seq<Exec>, x: Exec, layer: nat)
    requires layer < |x.picks| && forall k :: 0 <= k < |x.picks[layer]| ==> x.picks[layer][k] < hist.Length
    requires forall e :: 0 <= e < hist.Length ==> hist[e] == Uses(c, layer, e)
    modifies hist
    ensures forall e :: 0 <= e < hist.Length ==> hist[e] == Uses(c + [x], layer, e)
  {
    hide Uses;
    var picks := x.picks[layer];
    assert picks[..0] == [];
    for k := 0 to |picks|
      invariant forall e :: 0 <= e < hist.Length ==> hist[e] == Uses(c, layer, e) + multiset(picks[..k])[e]
    {
      assert picks[..k + 1] == picks[..k] + [picks[k]];
      hist[picks[k]] := hist[picks[k]] + 1;
    }
    assert picks[..|picks|] == picks;
    forall e | 0 <= e < hist.Length ensures hist[e] == Uses(c + [x], layer, e) {
      UsesSnoc(c, x, layer, e);
    }
  }

  /** The tokens of the batch stored in block b. */
  ghost function InBlock(bs: Size, slots: seq<nat>, xs: seq<Exec>, b: nat): seq<Exec>
    requires |slots| == |xs|
  {
    if slots == [] then []
    else
      var n := |slots| - 1;
      InBlock(bs, slots[..n], xs[..n], b) + if Blk(bs, slots[n]) == b then [xs[n]] else []
  }

  /** The batch writes offset 0 of block b. */
  ghost predicate Restarts(bs: Size, slots: seq<nat>, b: nat) {
    exists i :: 0 <= i < |slots| && Blk(bs, slots[i]) == b && Off(bs, slots[i]) == 0
  }

  /** The row of a block and a layer after the batch: the experts of its tokens are counted on
      top of the old counts, or from zero when the block starts again. */
  ghost predicate RowAfter(row: seq<int>, was: seq<int>, bs: Size, slots: seq<nat>, xs: seq<Exec>,
                           b: nat, l: nat, experts: nat)
    requires |slots| == |xs|
  {
    && |row| == |was| == experts
    && forall e :: 0 <= e < experts ==>
         row[e] == if InBlock(bs, slots, xs, b) == [] then was[e]
                   else Wrap8(Uses(InBlock(bs, slots, xs, b), l, e) + if Restarts(bs, slots, b) then 0 else was[e])
  }

  /** What the kernel does to all cells. */
  ghost predicate Counted(cells: Cells, cells': Cells, bs: Size, slots: seq<nat>, xs: seq<Exec>,
                          layers: nat, experts: nat)
  {
    && |slots| == |xs|
    && Shaped(cells, |cells|, layers, experts) && Shaped(cells', |cells|, layers, experts)
    && forall b, l :: 0 <= b < |cells| && 0 <= l < layers ==>
         RowAfter(cells'[b][l], cells[b][l], bs, slots, xs, b, l, experts)
  }

  /** What the first n tokens of the batch contribute to the run [s, t). */
  ghost function RunPart(xs: seq<Exec>, s: nat, t: nat, n: nat): seq<Exec>
    requires s < t <= |xs|
  {
    if n <= s then [] else xs[s..if n <= t then n else t]
  }

  lemma RunPartStep(xs: seq<Exec>, s: nat, t: nat, n: nat)
    requires s < t <= |xs| && n < |xs|
    ensures RunPart(xs, s, t, n + 1) == RunPart(xs, s, t, n) + if s <= n < t then [xs[n]] else []
  {
  }

  lemma {:induction false} InBlockIs(bs: Size, slots: seq<nat>, xs: seq<Exec>, s: nat, t: nat, n: nat)
    requires |slots| == |xs| && IsRun(bs, slots, s, t) && n <= |slots|
    ensures InBlock(bs, slots[..n], xs[..n], Blk(bs, slots[s])) == RunPart(xs, s, t, n)
  {
    hide Blk, Off;
    if n > 0 {
      hide InBlock, RunPart;
      InBlockIs(bs, slots, xs, s, t, n - 1);
      InBlockStep(bs, slots, xs, Blk(bs, slots[s]), n - 1);
      RunPartStep(xs, s, t, n - 1);
    }
  }

  lemma InBlockStep(bs: Size, slots: seq<nat>, xs: seq<Exec>, b: nat, n: nat)
    requires |slots| == |xs| && n < |slots|
    ensures InBlock(bs, slots[..n + 1], xs[..n + 1], b) ==
            InBlock(bs, slots[..n], xs[..n], b) + if Blk(bs, slots[n]) == b then [xs[n]] else []
  {
    hide Blk;
    assert slots[..n + 1][..n] == slots[..n] && xs[..n + 1][..n] == xs[..n];
  }

  /** For the block of a run: its tokens are those of the run, and it starts again exactly when
      the first of them has offset 0. */
  lemma RunInBlock(bs: Size, slots: seq<nat>, xs: seq<Exec>, s: nat, t: nat)
    requires |slots| == |xs| && IsRun(bs, slots, s, t)
    ensures InBlock(bs, slots, xs, Blk(bs, slots[s])) == xs[s..t] != []
    ensures Restarts(bs, slots, Blk(bs, slots[s])) <==> Off(bs, slots[s]) == 0
  {
    hide Blk, Off;
    InBlockIs(bs, slots, xs, s, t, |slots|);
    assert slots[..|slots|] == slots && xs[..|slots|] == xs;
  }

  lemma {:induction false} NoneInBlock(bs: Size, slots: seq<nat>, xs: seq<Exec>, b: nat)
    requires |slots| == |xs| && forall i :: 0 <= i < |slots| ==> Blk(bs, slots[i]) != b
    ensures InBlock(bs, slots, xs, b) == []
  {
    hide Blk;
    if slots != [] {
      NoneInBlock(bs, slots[..|slots| - 1], xs[..|slots| - 1], b);
    }
  }

  /** One program of the grid. */
  method Program(esc: array<seq<seq<int>>>, bs: Size, slots: seq<nat>, xs: seq<Exec>, start: nat, layer: nat,
                 layers: nat, experts: nat)
    requires |slots| == |xs| && start < |slots| && layer < layers
    requires InRange(bs, esc.Length, slots) && Tidy(bs, slots) && PicksOk(xs, layers, experts)
    requires Shaped(esc[..], esc.Length, layers, experts)
    modifies esc
    ensures Shaped(esc[..], esc.Length, layers, experts)
    ensures forall b, l :: 0 <= b < esc.Length && 0 <= l < layers ==>
              if Head(bs, slots, start) && b == Blk(bs, slots[start]) && l == layer
              then RowAfter(esc[b][l], old(esc[b])[l], bs, slots, xs, b, l, experts)
              else esc[b][l] == old(esc[b])[l]
  {
    hide Blk, Off, Tidy, Uses, Wrap8, PicksOk, InRange, InBlock, Restarts;
    var slot := slots[start];
    var block := Blk(bs, slot);
    SlotInRange(bs, esc.Length, slots, start);
    if start == 0 || block != Blk(bs, slots[start - 1]) {
      ghost var t := RunOf(bs, slots, start);
      PicksInRange(xs, layers, experts, layer);
      var hist := Histogram(bs, slots, xs, start, layer, experts, t);
      var before := esc[block][layer];
      var value := seq(experts, e requires 0 <= e < experts && e < hist.Length && e < |before| reads hist =>
                                  Wrap8(hist[e] + if Off(bs, slot) == 0 then 0 else before[e]));
      RunInBlock(bs, slots, xs, start, t);
      assert RowAfter(value, before, bs, slots, xs, block, layer, experts);
      esc[block] := esc[block][layer := value];
    }
  }

  lemma PicksInRange(xs: seq<Exec>, layers: nat, experts: nat, layer: nat)
    requires PicksOk(xs, layers, experts) && layer < layers
    ensures forall i :: 0 <= i < |xs| ==> layer < |xs[i].picks|
    ensures forall i, k :: 0 <= i < |xs| && 0 <= k < |xs[i].picks[layer]| ==> xs[i].picks[layer][k] < experts
  {
  }

  /** A program of the grid: its token and its layer. */
  datatype ProgramId = ProgramId(token: nat, layer: nat)

  /** The programs of the grid, each exactly once, in some order. */
  ghost predicate IsGrid(order: seq<ProgramId>, tokens: nat, layers: nat) {
    && (forall q :: 0 <= q < |order| ==> order[q].token < tokens && order[q].layer < layers)
    && (forall s, l :: 0 <= s < tokens && 0 <= l < layers ==> ProgramId(s, l) in order)
    && (forall q, r :: 0 <= q < r < |order| ==> order[q] != order[r])
  }

  /** The program that writes (b, l) is among the first q. */
  ghost predicate DoneBy(bs: Size, slots: seq<nat>, order: seq<ProgramId>, q: nat, b: nat, l: nat)
    requires q <= |order| && forall k :: 0 <= k < |order| ==> order[k].token < |slots|
  {
    exists k :: 0 <= k < q && order[k].layer == l &&
      Head(bs, slots, order[k].token) && Blk(bs, slots[order[k].token]) == b
  }

  lemma OneHead(bs: Size, slots: seq<nat>, s: nat, s': nat)
    requires Tidy(bs, slots) && s < |slots| && s' < |slots|
    ensures Head(bs, slots, s) && Head(bs, slots, s') && Blk(bs, slots[s]) == Blk(bs, slots[s']) ==> s == s'
  {
    hide Blk, Tidy;
    Between(bs, slots, s, s' - 1, s');
    Between(bs, slots, s', s - 1, s);
  }

  lemma DoneStep(bs: Size, slots: seq<nat>, order: seq<ProgramId>, q: nat, b: nat, l: nat)
    requires q < |order| && Tidy(bs, slots)
    requires forall k :: 0 <= k < |order| ==> order[k].token < |slots|
    requires forall k, r :: 0 <= k < r < |order| ==> order[k] != order[r]
    ensures var own := Head(bs, slots, order[q].token) && Blk(bs, slots[order[q].token]) == b && order[q].layer == l;
            && (DoneBy(bs, slots, order, q + 1, b, l) <==> DoneBy(bs, slots, order, q, b, l) || own)
            && (own ==> !DoneBy(bs, slots, order, q, b, l))
  {
    hide Blk, Tidy;
    var own := Head(bs, slots, order[q].token) && Blk(bs, slots[order[q].token]) == b && order[q].layer == l;
    forall k | 0 <= k < q
      ensures !(own && order[k].layer == l && Head(bs, slots, order[k].token) && Blk(bs, slots[order[k].token]) == b)
    {
      OneHead(bs, slots, order[k].token, order[q].token);
      assert order[k] != order[q];
    }
  }

  /** Every block of the batch has a first token. */
  lemma HeadExists(bs: Size, slots: seq<nat>, i: nat) returns (s: nat)
    requires i < |slots|
    ensures s <= i && Head(bs, slots, s) && Blk(bs, slots[s]) == Blk(bs, slots[i])
  {
    hide Blk;
    s := i;
    while !Head(bs, slots, s)
      invariant s <= i && Blk(bs, slots[s]) == Blk(bs, slots[i])
      decreases s
    {
      s := s - 1;
    }
  }

  /** A block no program has written has no token in the batch. */
  lemma AllDone(bs: Size, slots: seq<nat>, xs: seq<Exec>, order: seq<ProgramId>, layers: nat, b: nat, l: nat)
    requires |slots| == |xs| && IsGrid(order, |slots|, layers)
    requires l < layers && !DoneBy(bs, slots, order, |order|, b, l)
    ensures InBlock(bs, slots, xs, b) == []
  {
    hide Blk, InBlock;
    forall i | 0 <= i < |slots| ensures Blk(bs, slots[i]) != b {
      var s := HeadExists(bs, slots, i);
      assert ProgramId(s, l) in order;
      var k :| 0 <= k < |order| && order[k] == ProgramId(s, l);
    }
    NoneInBlock(bs, slots, xs, b);
  }

  /** reduce_counts: whatever the order of the programs, every cell counts the tokens of the
      batch in its block. */
  method ReduceCounts(esc: array<seq<seq<int>>>, bs: Size, slots: seq<nat>, xs: seq<Exec>, order: seq<ProgramId>,
                      layers: nat, experts: nat)
    requires |slots| == |xs| && IsGrid(order, |slots|, layers)
    requires InRange(bs, esc.Length, slots) && Tidy(bs, slots) && PicksOk(xs, layers, experts)
    requires Shaped(esc[..], esc.Length, layers, experts)
    modifies esc
    ensures Counted(old(esc[..]), esc[..], bs, slots, xs, layers, experts)
  {
    hide Blk, RowAfter, Tidy, PicksOk, Head, DoneBy, InRange, InBlock;
    NotDone(bs, slots, order);
    for q := 0 to |order|
      invariant Shaped(esc[..], esc.Length, layers, experts)
      invariant forall b, l :: 0 <= b < esc.Length && 0 <= l < layers ==>
                  if DoneBy(bs, slots, order, q, b, l)
                  then RowAfter(esc[b][l], old(esc[b])[l], bs, slots, xs, b, l, experts)
                  else esc[b][l] == old(esc[b])[l]
    {
      var ProgramId(start, layer) := order[q];
      forall b, l | 0 <= b < esc.Length && 0 <= l < layers
        ensures var own := Head(bs, slots, order[q].token) && Blk(bs, slots[order[q].token]) == b &&
                  order[q].layer == l;
                && (DoneBy(bs, slots, order, q + 1, b, l) <==> DoneBy(bs, slots, order, q, b, l) || own)
                && (own ==> !DoneBy(bs, slots, order, q, b, l))
      {
        DoneStep(bs, slots, order, q, b, l);
      }
      SlotInRange(bs, esc.Length, slots, start);
      Program(esc, bs, slots, xs, start, layer, layers, experts);
    }
    forall b, l | 0 <= b < esc.Length && 0 <= l < layers && !DoneBy(bs, slots, order, |order|, b, l)
      ensures RowAfter(esc[b][l], old(esc[b])[l], bs, slots, xs, b, l, experts)
    {
      AllDone(bs, slots, xs, order, layers, b, l);
      RowKept(esc[b][l], bs, slots, xs, b, l, experts);
    }
  }

  lemma RowKept(row: seq<int>, bs: Size, slots: seq<nat>, xs: seq<Exec>, b: nat, l: nat, experts: nat)
    requires |slots| == |xs| && |row| == experts && InBlock(bs, slots, xs, b) == []
    ensures RowAfter(row, row, bs, slots, xs, b, l, experts)
  {
  }

  /** The kernel refines writing the tokens one by one, in blocks that forget their tokens when
      offset 0 is written. */
  lemma CountedIsWritten(cells: Cells, cells': Cells, c: Contents, bs: Size, slots: seq<nat>, xs: seq<Exec>,
                         layers: nat, experts: nat)
    requires Counted(cells, cells', bs, slots, xs, layers, experts) && Wrapped(cells, c, layers, experts)
    requires InRange(bs, |c|, slots) && Tidy(bs, slots)
    ensures Wrapped(cells', WriteAll(c, bs, slots, xs), layers, experts)
  {
    hide Blk, Off, RowAfter, RowIs, InRange, Tidy, WriteAll;
    forall b, l | 0 <= b < |c| && 0 <= l < layers
      ensures RowIs(cells'[b][l], WriteAll(c, bs, slots, xs)[b], l, experts)
    {
      RowIsWritten(cells[b][l], cells'[b][l], c, bs, slots, xs, b, l, experts);
    }
  }

  lemma RowIsWritten(was: seq<int>, row: seq<int>, c: Contents, bs: Size, slots: seq<nat>, xs: seq<Exec>,
                     b: nat, l: nat, experts: nat)
    requires |slots| == |xs| && InRange(bs, |c|, slots) && Tidy(bs, slots) && b < |c|
    requires RowAfter(row, was, bs, slots, xs, b, l, experts) && RowIs(was, c[b], l, experts)
    ensures RowIs(row, WriteAll(c, bs, slots, xs)[b], l, experts)
  {
    hide Blk, Off, Uses, Wrap8, WriteAll, Tidy, InRange, Restarts, InBlock;
    if i :| 0 <= i < |slots| && Blk(bs, slots[i]) == b {
      var s := HeadExists(bs, slots, i);
      var t := RunOf(bs, slots, s);
      RunInBlock(bs, slots, xs, s, t);
      forall e | 0 <= e < experts ensures row[e] == Wrap8(Uses(WriteAll(c, bs, slots, xs)[b], l, e)) {
        RunCounts(c, bs, slots, xs, s, t, l, e);
        Wrap8Add(Uses(xs[s..t], l, e), Uses(c[b], l, e));
      }
    } else {
      NoneInBlock(bs, slots, xs, b);
      BlockUntouched(c, bs, slots, xs, b);
    }
  }

  lemma NotDone(bs: Size, slots: seq<nat>, order: seq<ProgramId>)
    requires forall k :: 0 <= k < |order| ==> order[k].token < |slots|
    ensures forall b, l :: !DoneBy(bs, slots, order, 0, b, l)
  {
  }

  lemma SlotInRange(bs: Size, n: nat, slots: seq<nat>, i: nat)
    requires InRange(bs, n, slots) && i < |slots|
    ensures Blk(bs, slots[i]) < n
  {
  }

  // ----- the sums of a request

  ghost function CellSum(cells: Cells, blocks: seq<nat>, l: nat, e: nat): int {
    if blocks == [] then 0
    else CellSum(cells, blocks[..|blocks| - 1], l, e) + CellAt(cells, blocks[|blocks| - 1], l, e)
  }

  ghost function CellAt(cells: Cells, b: nat, l: nat, e: nat): int {
    if b < |cells| && l < |cells[b]| && e < |cells[b][l]| then cells[b][l][e] else 0
  }

  function BlocksFor(bs: Size, tokens: nat): nat
  {
    (tokens + bs - 1) / bs
  }

  /** The least number of blocks that holds the tokens. */
  lemma BlocksForIs(bs: Size, tokens: nat)
    ensures tokens <= BlocksFor(bs, tokens) * bs < tokens + bs
  {
    var n := BlocksFor(bs, tokens);
    assert n * bs + (tokens + bs - 1) % bs == tokens + bs - 1;
  }

  const BLOCK_TILE := 8

  /** sum_rows for one request and layer, in tiles of eight blocks; a discarded row is zero. */
  method SumRow(cells: Cells, bs: Size, table: seq<nat>, tokens: nat, discard: bool, layer: nat,
                layers: nat, experts: nat)
    returns (out: seq<int>)
    requires layer < layers && Shaped(cells, |cells|, layers, experts)
    requires !discard ==> BlocksFor(bs, tokens) <= |table|
    requires !discard ==> forall i :: 0 <= i < BlocksFor(bs, tokens) ==> table[i] < |cells|
    ensures |out| == experts
    ensures forall e :: 0 <= e < experts ==>
              out[e] == Wrap16(if discard then 0 else CellSum(cells, table[..BlocksFor(bs, tokens)], layer, e))
  {
    hide BlocksFor, Wrap16, CellSum, CellAt;
    var count := if discard then 0 else BlocksFor(bs, tokens);
    ghost var blocks := if discard then [] else table[..BlocksFor(bs, tokens)];
    var total := new int[experts](_ => 0);
    var start := 0;
    assert blocks[..0] == [];
    NoCells(cells, layer);
    while start < count
      invariant forall e :: 0 <= e < experts ==>
                  total[e] == CellSum(cells, blocks[..if start <= count then start else count], layer, e)
    {
      for o := 0 to BLOCK_TILE
        invariant forall e :: 0 <= e < experts ==>
                    total[e] == CellSum(cells, blocks[..if start + o <= count then start + o else count], layer, e)
      {
        if start + o < count {
          AddBlock(cells, total, blocks, start + o, cells[table[start + o]][layer], layer);
        }
      }
      start := start + BLOCK_TILE;
    }
    assert blocks[..count] == blocks;
    out := seq(experts, e requires 0 <= e < total.Length reads total => Wrap16(total[e]));
  }

  lemma NoCells(cells: Cells, l: nat)
    ensures forall e :: CellSum(cells, [], l, e) == 0
  {
  }

  method AddBlock(ghost cells: Cells, total: array<int>, ghost blocks: seq<nat>, ghost n: nat, row: seq<int>,
                  ghost layer: nat)
    requires n < |blocks| && |row| == total.Length
    requires blocks[n] < |cells| && layer < |cells[blocks[n]]| && row == cells[blocks[n]][layer]
    requires forall e :: 0 <= e < total.Length ==> total[e] == CellSum(cells, blocks[..n], layer, e)
    modifies total
    ensures forall e :: 0 <= e < total.Length ==> total[e] == CellSum(cells, blocks[..n + 1], layer, e)
  {
    assert blocks[..n + 1][..n] == blocks[..n];
    for e := 0 to total.Length
      invariant forall i :: 0 <= i < total.Length ==>
                  total[i] == CellSum(cells, if i < e then blocks[..n + 1] else blocks[..n], layer, i)
    {
      assert CellAt(cells, blocks[n], layer, e) == row[e];
      total[e] := total[e] + row[e];
    }
  }

  // ----- what is counted

  /** The choices of expert e in layer l, each as the token and the rank of the choice. */
  ghost function Choices(c: seq<Exec>, l: nat, e: nat): set<(int, int)> {
    set i, k | 0 <= i < |c| && l < |c[i].picks| && 0 <= k < |c[i].picks[l]| && c[i].picks[l][k] == e :: (i, k)
  }

  /** The choices of e by the token at position i. */
  ghost function ChoicesOf(i: int, s: seq<nat>, e: nat): set<(int, int)> {
    set k | 0 <= k < |s| && s[k] == e :: (i, k)
  }

  lemma {:induction false} ChoicesOfSize(i: int, s: seq<nat>, e: nat)
    ensures |ChoicesOf(i, s, e)| == multiset(s)[e]
  {
    if s == [] {
      assert ChoicesOf(i, s, e) == {};
    } else {
      var n := |s| - 1;
      ChoicesOfSize(i, s[..n], e);
      assert s == s[..n] + [s[n]];
      assert ChoicesOf(i, s, e) == ChoicesOf(i, s[..n], e) + if s[n] == e then {(i, n)} else {};
      assert (i, n) !in ChoicesOf(i, s[..n], e);
    }
  }

  /** A count is the number of choices: every rank of every token is counted, and once. */
  lemma {:induction false} UsesAreChoices(c: seq<Exec>, l: nat, e: nat)
    ensures Uses(c, l, e) == |Choices(c, l, e)|
  {
    if c == [] {
      assert Choices(c, l, e) == {};
    } else {
      var n := |c| - 1;
      var s := if l < |c[n].picks| then c[n].picks[l] else [];
      UsesAreChoices(c[..n], l, e);
      ChoicesOfSize(n, s, e);
      ChoicesSnoc(c[..n], c[n], l, e, s);
      assert c == c[..n] + [c[n]];
    }
  }

  lemma ChoicesSnoc(c: seq<Exec>, x: Exec, l: nat, e: nat, s: seq<nat>)
    requires s == if l < |x.picks| then x.picks[l] else []
    ensures |Choices(c + [x], l, e)| == |Choices(c, l, e)| + |ChoicesOf(|c|, s, e)|
  {
    var a, b, both := Choices(c, l, e), ChoicesOf(|c|, s, e), Choices(c + [x], l, e);
    forall q | q in both ensures q in a + b {
      if q.0 < |c| {
        assert (c + [x])[q.0] == c[q.0];
      }
    }
    forall q | q in a ensures q in both {
      assert (c + [x])[q.0] == c[q.0];
    }
    forall q | q in b ensures q in both {
      assert (c + [x])[q.0] == x;
    }
    assert both == a + b && a !! b;
  }

  ghost function RowSum(row: seq<int>): int {
    if row == [] then 0 else RowSum(row[..|row| - 1]) + row[|row| - 1]
  }

  /** The number of choices the tokens made in layer l. */
  ghost function Picked(c: seq<Exec>, l: nat): nat {
    if c == [] then 0
    else Picked(c[..|c| - 1], l) + if l < |c[|c| - 1].picks| then |c[|c| - 1].picks[l]| else 0
  }

  lemma {:induction false} RowSumPlus(a: seq<int>, b: seq<int>, c: seq<int>)
    requires |a| == |b| == |c| && forall i :: 0 <= i < |a| ==> c[i] == a[i] + b[i]
    ensures RowSum(c) == RowSum(a) + RowSum(b)
  {
    if a != [] {
      RowSumPlus(a[..|a| - 1], b[..|a| - 1], c[..|a| - 1]);
    }
  }

  lemma {:induction false} RowSumZero(a: seq<int>)
    requires forall i :: 0 <= i < |a| ==> a[i] == 0
    ensures RowSum(a) == 0
  {
    if a != [] {
      RowSumZero(a[..|a| - 1]);
    }
  }

  lemma {:induction false} RowSumOne(a: seq<int>, k: nat)
    requires k < |a| && forall i :: 0 <= i < |a| ==> a[i] == if i == k then 1 else 0
    ensures RowSum(a) == 1
  {
    var n := |a| - 1;
    if k == n {
      RowSumZero(a[..n]);
    } else {
      RowSumOne(a[..n], k);
    }
  }

  lemma {:induction false} TimesTotal(s: seq<nat>, row: seq<int>)
    requires forall k :: 0 <= k < |s| ==> s[k] < |row|
    requires forall e :: 0 <= e < |row| ==> row[e] == multiset(s)[e]
    ensures RowSum(row) == |s|
  {
    if s == [] {
      RowSumZero(row);
    } else {
      var n := |s| - 1;
      assert s == s[..n] + [s[n]];
      var rest := seq(|row|, e requires 0 <= e => multiset(s[..n])[e]);
      var one := seq(|row|, e => if e == s[n] then 1 else 0);
      TimesTotal(s[..n], rest);
      RowSumOne(one, s[n]);
      RowSumPlus(rest, one, row);
    }
  }

  /** No choice is missed: over all experts the counts add up to the number of choices. */
  lemma {:induction false} UsesTotal(c: seq<Exec>, l: nat, row: seq<int>, layers: nat)
    requires PicksOk(c, layers, |row|) && l < layers
    requires forall e :: 0 <= e < |row| ==> row[e] == Uses(c, l, e)
    ensures RowSum(row) == Picked(c, l)
  {
    if c == [] {
      RowSumZero(row);
    } else {
      var n := |c| - 1;
      var rest := seq(|row|, e requires 0 <= e => Uses(c[..n], l, e));
      var last := seq(|row|, e requires 0 <= e => Times(c[n], l, e));
      UsesTotal(c[..n], l, rest, layers);
      TimesTotal(c[n].picks[l], last);
      RowSumPlus(rest, last, row);
    }
  }

  lemma {:induction false} PickedEach(c: seq<Exec>, l: nat, k: nat)
    requires forall i :: 0 <= i < |c| ==> l < |c[i].picks| && |c[i].picks[l]| == k
    ensures Picked(c, l) == |c| * k
  {
    if c != [] {
      PickedEach(c[..|c| - 1], l, k);
    }
  }

  // ----- when the stored counts are exact

  /** A gate chooses an expert at most once per layer. */
  ghost predicate TopK(x: Exec) {
    forall l, i, j :: 0 <= l < |x.picks| && 0 <= i < j < |x.picks[l]| ==> x.picks[l][i] != x.picks[l][j]
  }

  lemma {:induction false} AtMostOnce(s: seq<nat>, e: nat)
    requires forall i, j :: 0 <= i < j < |s| ==> s[i] != s[j]
    ensures multiset(s)[e] <= 1
  {
    if s != [] {
      var rest := s[..|s| - 1];
      assert s == rest + [s[|s| - 1]];
      AtMostOnce(rest, e);
    }
  }

  /** An expert is chosen at most as often as there are tokens. */
  lemma {:induction false} UsesBound(c: seq<Exec>, l: nat, e: nat)
    requires forall i :: 0 <= i < |c| ==> TopK(c[i])
    ensures Uses(c, l, e) <= |c|
  {
    if c != [] {
      var x := c[|c| - 1];
      UsesBound(c[..|c| - 1], l, e);
      assert TopK(x);
      if l < |x.picks| {
        AtMostOnce(x.picks[l], e);
      }
    }
  }

  /** A stored count is the count exactly when it is at most 127. */
  lemma StoredExactly(v: nat)
    ensures Wrap8(v) == v <==> v <= 127
    ensures Wrap16(v) == v <==> v <= 32767
  {
  }
}
