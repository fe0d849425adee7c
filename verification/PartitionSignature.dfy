/** Signatures of graph partitions (get_graph_partition_signature_patched in
    vllm/env_override.py).

    A backward pass decides, for each partition, which buffers it takes in, which of them it
    frees and which it returns.  The pass is proved against a forward execution: partitions run
    in order, take their inputs from the buffers that are available, drop the freed ones and
    add the returned ones. */
module PartitionSignature {

  type Name = nat

  /** A buffer's layout; a NoneLayout buffer is not allocated.  `mutation` marks the result of
      an in-place update. */
  datatype Layout = Allocated | NoneLayout(mutation: bool)

  datatype Node = Node(outputs: set<Name>, readNames: set<Name>, writeNames: set<Name>, lastUsage: set<Name>)

  type Partition = seq<Node>

  /** The scheduler's tables: `known` are the names that have a node (graph inputs and buffers),
      `realName` maps the name of a mutation to the buffer it updates. */
  datatype Graph = Graph(inputs: set<Name>, outputs: set<Name>, known: set<Name>, constants: set<Name>,
                         layout: map<Name, Layout>, realName: map<Name, Name>)

  datatype Signature = Signature(inputs: set<Name>, deallocation: map<Name, bool>, outputs: set<Name>,
                                 constants: set<Name>, skipCudagraph: bool)

  datatype Result<T> = Ok(value: T) | KeyError

  // ----- names

  /** Real names are final: the table never chains. */
  ghost predicate Resolved(g: Graph) {
    forall n :: n in g.realName ==> g.realName[n] !in g.realName
  }

  function Real(g: Graph, n: Name): Name {
    if n in g.realName then g.realName[n] else n
  }

  function Reals(g: Graph, s: set<Name>): set<Name> {
    set n | n in s :: Real(g, n)
  }

  /** is_none_layout: a mutation of an allocated buffer counts as allocated. */
  predicate IsNoneLayout(g: Graph, n: Name)
    requires Resolved(g)
    decreases n in g.realName
  {
    if n !in g.layout || g.layout[n].Allocated? then false
    else if g.layout[n].mutation && n in g.realName then IsNoneLayout(g, g.realName[n])
    else true
  }

  /** When renamed buffers are mutations, a name is unallocated exactly if its real buffer is. */
  lemma NoneLayoutIs(g: Graph, n: Name)
    requires Resolved(g) && (n in g.realName ==> n in g.layout && g.layout[n] == NoneLayout(true))
    ensures IsNoneLayout(g, n) <==> Real(g, n) in g.layout && g.layout[Real(g, n)].NoneLayout?
  {
  }

  // ----- what a partition touches

  function Outputs(p: Partition): set<Name> {
    set node, x | node in p && x in node.outputs :: x
  }

  function Uses(p: Partition): set<Name> {
    (set node, x | node in p && x in node.readNames :: x) + (set node, x | node in p && x in node.writeNames :: x)
  }

  function Frees(p: Partition): set<Name> {
    set node, x | node in p && x in node.lastUsage :: x
  }

  /** partition_input_names: real names of what is read or written but not produced here, and
      buffers freed here but produced elsewhere. */
  function InputNames(g: Graph, p: Partition): set<Name>
    requires Resolved(g)
  {
    Reals(g, set x | x in Uses(p) - Outputs(p) && !IsNoneLayout(g, x)) + (Frees(p) - Outputs(p)) * g.known
  }

  function ReturnedNames(g: Graph, p: Partition, unmet: set<Name>): set<Name>
    requires Resolved(g)
  {
    Reals(g, Outputs(p) * unmet + (InputNames(g, p) * g.known - Frees(p)))
  }

  function SignatureOf(g: Graph, p: Partition, unmet: set<Name>, skip: bool): Signature
    requires Resolved(g)
  {
    var names := InputNames(g, p);
    Signature(names * g.known,
              (map x | x in names * g.known :: x in Frees(p)),
              (set x | x in ReturnedNames(g, p, unmet) && !IsNoneLayout(g, x)),
              names * g.constants,
              skip)
  }

  function UnmetBefore(g: Graph, p: Partition, unmet: set<Name>): set<Name>
    requires Resolved(g)
  {
    InputNames(g, p) + (unmet - ReturnedNames(g, p, unmet))
  }

  /** The names still to be provided when partition i has been handled by the backward pass. */
  function Unmet(g: Graph, ps: seq<Partition>, i: nat): set<Name>
    requires Resolved(g) && i <= |ps|
    decreases |ps| - i
  {
    if i == |ps| then g.outputs else UnmetBefore(g, ps[i], Unmet(g, ps, i + 1))
  }

  function SignatureAt(g: Graph, ps: seq<Partition>, skips: seq<bool>, i: nat): Signature
    requires Resolved(g) && i < |ps| == |skips|
  {
    SignatureOf(g, ps[i], Unmet(g, ps, i + 1), skips[i])
  }

  // ----- the backward pass

  method CollectNames(p: Partition) returns (outputs: set<Name>, uses: set<Name>, frees: set<Name>)
    ensures outputs == Outputs(p) && uses == Uses(p) && frees == Frees(p)
  {
    outputs, uses, frees := {}, {}, {};
    for k := 0 to |p|
      invariant outputs == Outputs(p[..k]) && uses == Uses(p[..k]) && frees == Frees(p[..k])
    {
      assert p[..k + 1] == p[..k] + [p[k]];
      outputs := outputs + p[k].outputs;
      uses := uses + p[k].readNames + p[k].writeNames;
      frees := frees + p[k].lastUsage;
    }
    assert p[..|p|] == p;
  }

  method SignPartition(g: Graph, p: Partition, unmet: set<Name>, skip: bool)
    returns (r: Result<Signature>, unmet': set<Name>)
    requires Resolved(g)
    ensures r == if SignatureOf(g, p, unmet, skip).outputs <= g.known then Ok(SignatureOf(g, p, unmet, skip))
              else KeyError
    ensures unmet' == UnmetBefore(g, p, unmet)
  {
    var outputNames, readWrites, namesToFree := CollectNames(p);
    var returned := outputNames * unmet;
    var inputNames := (set x | x in readWrites && !IsNoneLayout(g, x)) - outputNames;
    inputNames := Reals(g, inputNames);
    var extraInputs := (namesToFree - outputNames) * g.known;
    inputNames := inputNames + extraInputs;
    var deallocation := map x | x in inputNames && x in g.known :: x in namesToFree;
    var extraOutputs := set x | x in inputNames && x in g.known && x !in namesToFree;
    returned := Reals(g, returned + extraOutputs);
    var outputNodes := set x | x in returned && !IsNoneLayout(g, x);
    assert (set x | x in Uses(p) - Outputs(p) && !IsNoneLayout(g, x)) ==
           (set x | x in readWrites && !IsNoneLayout(g, x)) - outputNames;
    assert inputNames == InputNames(g, p);
    assert outputNames * unmet + extraOutputs == Outputs(p) * unmet + (InputNames(g, p) * g.known - Frees(p));
    assert returned == ReturnedNames(g, p, unmet);
    unmet' := inputNames + (unmet - returned);
    if outputNodes <= g.known {
      r := Ok(Signature(inputNames * g.known, deallocation, outputNodes, inputNames * g.constants, skip));
      assert deallocation == SignatureOf(g, p, unmet, skip).deallocation;
    } else {
      r := KeyError;
    }
  }

  function SignaturesFrom(g: Graph, ps: seq<Partition>, skips: seq<bool>, i: nat): (r: seq<Signature>)
    requires Resolved(g) && i <= |ps| == |skips|
    ensures |r| == |ps| - i
    decreases |ps| - i
  {
    if i == |ps| then [] else [SignatureAt(g, ps, skips, i)] + SignaturesFrom(g, ps, skips, i + 1)
  }

  lemma {:induction false} SignaturesFromAt(g: Graph, ps: seq<Partition>, skips: seq<bool>, i: nat, k: nat)
    requires Resolved(g) && i <= k < |ps| == |skips|
    ensures SignaturesFrom(g, ps, skips, i)[k - i] == SignatureAt(g, ps, skips, k)
    decreases |ps| - i
  {
    if i < k {
      SignaturesFromAt(g, ps, skips, i + 1, k);
    }
  }

  ghost predicate AllKnown(g: Graph, signatures: seq<Signature>) {
    forall k :: 0 <= k < |signatures| ==> signatures[k].outputs <= g.known
  }

  /** get_graph_partition_signature_patched. */
  method GetSignatures(g: Graph, ps: seq<Partition>, skips: seq<bool>) returns (r: Result<seq<Signature>>)
    requires Resolved(g) && |ps| == |skips|
    ensures r.Ok? ==> |r.value| == |ps| && forall i :: 0 <= i < |ps| ==> r.value[i] == SignatureAt(g, ps, skips, i)
    ensures r.Ok? <==> forall i :: 0 <= i < |ps| ==> SignatureAt(g, ps, skips, i).outputs <= g.known
  {
    hide SignatureOf, UnmetBefore, Resolved;
    var signatures: seq<Signature> := [];
    var unmet := g.outputs;
    var i := |ps|;
    while i > 0
      invariant 0 <= i <= |ps|
      invariant unmet == Unmet(g, ps, i)
      invariant signatures == SignaturesFrom(g, ps, skips, i)
      invariant AllKnown(g, signatures)
    {
      i := i - 1;
      var s;
      s, unmet := SignPartition(g, ps[i], unmet, skips[i]);
      if s.KeyError? {
        assert !(SignatureAt(g, ps, skips, i).outputs <= g.known);
        return KeyError;
      }
      signatures := [s.value] + signatures;
    }
    forall k | 0 <= k < |ps| ensures signatures[k] == SignatureAt(g, ps, skips, k) {
      SignaturesFromAt(g, ps, skips, 0, k);
    }
    return Ok(signatures);
  }

  // ----- the forward execution

  ghost function Freed(s: Signature): set<Name> {
    set x | x in s.deallocation && s.deallocation[x]
  }

  /** The buffers available before partition i runs. */
  ghost function Available(g: Graph, ps: seq<Partition>, skips: seq<bool>, i: nat): set<Name>
    requires Resolved(g) && i <= |ps| == |skips|
  {
    if i == 0 then g.inputs
    else
      var s := SignatureAt(g, ps, skips, i - 1);
      Available(g, ps, skips, i - 1) - Freed(s) + s.outputs
  }

  ghost predicate DefinedBefore(g: Graph, ps: seq<Partition>, i: nat, x: Name)
    requires i <= |ps|
  {
    x in g.inputs || exists j :: 0 <= j < i && x in Outputs(ps[j])
  }

  /** What the scheduler guarantees about its tables, its order and its last-usage analysis. */
  ghost predicate Scheduled(g: Graph, ps: seq<Partition>) {
    && Resolved(g)
    // a renamed buffer is a mutation of a known one
    && (forall n :: n in g.realName ==> n in g.layout && g.layout[n] == NoneLayout(true))
    && (forall n :: n in g.realName && n in g.known ==> g.realName[n] in g.known)
    // graph inputs are real, allocated buffers
    && (forall x :: x in g.inputs ==> x in g.known && x !in g.realName && !IsNoneLayout(g, x))
    && (forall i :: 0 <= i < |ps| ==> WellPlaced(g, ps, i))
    && (forall x :: x in g.outputs && x in g.known ==> DefinedBefore(g, ps, |ps|, x))
  }

  ghost predicate WellPlaced(g: Graph, ps: seq<Partition>, i: nat)
    requires Resolved(g) && i < |ps|
  {
    && Outputs(ps[i]) <= g.known
    && Outputs(ps[i]) !! g.inputs
    && (forall j :: 0 <= j < i ==> Outputs(ps[j]) !! Outputs(ps[i]))
    // what a partition needs was produced before it
    && (forall x :: x in InputNames(g, ps[i]) && x in g.known ==> DefinedBefore(g, ps, i, x))
    // what it frees is a real buffer that nothing needs afterwards
    && (forall x :: x in Frees(ps[i]) ==> x !in g.realName)
    && (forall x :: x in Frees(ps[i]) ==> DeadAfter(g, ps, i, x))
  }

  ghost predicate DeadAfter(g: Graph, ps: seq<Partition>, i: nat, x: Name)
    requires Resolved(g) && i < |ps|
  {
    && x !in Reals(g, g.outputs)
    && forall j :: i < j < |ps| ==> x !in InputNames(g, ps[j])
  }

  /** No partition frees an unallocated buffer of another partition. */
  ghost predicate FreesAllocated(g: Graph, ps: seq<Partition>)
    requires Resolved(g)
  {
    forall i, x :: 0 <= i < |ps| && x in Frees(ps[i]) - Outputs(ps[i]) && x in g.known ==> !IsNoneLayout(g, x)
  }

  /** Every partition finds its inputs, and every graph output is there at the end. */
  ghost predicate Sound(g: Graph, ps: seq<Partition>, skips: seq<bool>)
    requires Resolved(g) && |ps| == |skips|
  {
    && (forall i :: 0 <= i < |ps| ==> SignatureAt(g, ps, skips, i).inputs <= Available(g, ps, skips, i))
    && (forall x :: x in g.outputs && x in g.known && !IsNoneLayout(g, x) ==>
          Real(g, x) in Available(g, ps, skips, |ps|))
  }

  // ----- soundness

  lemma InputIsReal(g: Graph, ps: seq<Partition>, i: nat, x: Name)
    requires Scheduled(g, ps) && i < |ps| && x in InputNames(g, ps[i])
    ensures Real(g, x) == x
  {
    assert WellPlaced(g, ps, i);
  }

  /** Whatever is still unmet is a graph output or an input of a later partition. */
  lemma {:induction false} UnmetIsNeeded(g: Graph, ps: seq<Partition>, i: nat, x: Name)
    requires Resolved(g) && i <= |ps| && x in Unmet(g, ps, i)
    ensures x in g.outputs || exists j :: i <= j < |ps| && x in InputNames(g, ps[j])
    decreases |ps| - i
  {
    if i < |ps| && x !in InputNames(g, ps[i]) {
      UnmetIsNeeded(g, ps, i + 1, x);
    }
  }

  /** The invariant of the forward run: an unmet name that exists already is available. */
  ghost predicate UnmetAvailable(g: Graph, ps: seq<Partition>, skips: seq<bool>, i: nat)
    requires Resolved(g) && i <= |ps| == |skips|
  {
    forall x :: x in Unmet(g, ps, i) && x in g.known && DefinedBefore(g, ps, i, x) && !IsNoneLayout(g, x) ==>
      Real(g, x) in Available(g, ps, skips, i)
  }

  lemma StillNeeded(g: Graph, ps: seq<Partition>, i: nat, x: Name)
    requires Scheduled(g, ps) && i < |ps| && x in Unmet(g, ps, i + 1)
    ensures Real(g, x) !in Frees(ps[i])
  {
    UnmetIsNeeded(g, ps, i + 1, x);
    assert WellPlaced(g, ps, i);
    if x !in g.outputs {
      var j :| i + 1 <= j < |ps| && x in InputNames(g, ps[j]);
      InputIsReal(g, ps, j, x);
    } else {
      assert Real(g, x) in Reals(g, g.outputs);
    }
  }

  lemma AvailableNext(g: Graph, ps: seq<Partition>, skips: seq<bool>, i: nat)
    requires Resolved(g) && i < |ps| == |skips|
    ensures var s := SignatureAt(g, ps, skips, i);
            && Available(g, ps, skips, i + 1) == Available(g, ps, skips, i) - Freed(s) + s.outputs
            && Unmet(g, ps, i) == UnmetBefore(g, ps[i], Unmet(g, ps, i + 1))
  {
  }

  lemma FreedAre(g: Graph, p: Partition, unmet: set<Name>, skip: bool)
    requires Resolved(g)
    ensures var s := SignatureOf(g, p, unmet, skip);
            && Freed(s) <= Frees(p)
            && forall x :: x in s.outputs <==> x in ReturnedNames(g, p, unmet) && !IsNoneLayout(g, x)
  {
  }

  lemma Returned(g: Graph, p: Partition, unmet: set<Name>, x: Name)
    requires Resolved(g) && x in Outputs(p) * unmet
    ensures Real(g, x) in ReturnedNames(g, p, unmet)
  {
    assert x in Outputs(p) * unmet + (InputNames(g, p) * g.known - Frees(p));
  }

  lemma ReturnedReal(g: Graph, p: Partition, unmet: set<Name>, x: Name)
    requires Resolved(g) && x in ReturnedNames(g, p, unmet)
    ensures exists y :: Real(g, y) == x
  {
  }

  /** What is returned under the name of an allocated buffer is allocated. */
  lemma RealAllocated(g: Graph, x: Name)
    requires Resolved(g)
    ensures Real(g, Real(g, x)) == Real(g, x)
    ensures IsNoneLayout(g, Real(g, x)) && (x in g.realName ==> x in g.layout && g.layout[x] == NoneLayout(true)) ==>
              IsNoneLayout(g, x)
  {
  }

  lemma StepKeepsAvailable(g: Graph, ps: seq<Partition>, skips: seq<bool>, i: nat, x: Name)
    requires Scheduled(g, ps) && i < |ps| == |skips| && UnmetAvailable(g, ps, skips, i)
    requires x in Unmet(g, ps, i + 1) && x in g.known && DefinedBefore(g, ps, i + 1, x) && !IsNoneLayout(g, x)
    ensures Real(g, x) in Available(g, ps, skips, i + 1)
  {
    hide Available, Unmet, ReturnedNames, InputNames, Freed, WellPlaced, Real, IsNoneLayout, Outputs, Frees,
        SignatureOf;
    var unmet := Unmet(g, ps, i + 1);
    AvailableNext(g, ps, skips, i);
    FreedAre(g, ps[i], unmet, skips[i]);
    RealAllocated(g, x);
    if x in Outputs(ps[i]) {
      Returned(g, ps[i], unmet, x);
    } else if x in ReturnedNames(g, ps[i], unmet) {
      ReturnedReal(g, ps[i], unmet, x);
      var y :| Real(g, y) == x;
      RealAllocated(g, y);
    } else {
      assert x in Unmet(g, ps, i);
      StillNeeded(g, ps, i, x);
    }
  }

  lemma {:induction false} RunKeepsAvailable(g: Graph, ps: seq<Partition>, skips: seq<bool>, i: nat)
    requires Scheduled(g, ps) && i <= |ps| == |skips|
    ensures UnmetAvailable(g, ps, skips, i)
  {
    if i == 0 {
      InputsAvailable(g, ps, skips);
    } else {
      hide Scheduled, Available, Unmet, Real, IsNoneLayout, DefinedBefore;
      RunKeepsAvailable(g, ps, skips, i - 1);
      forall x | x in Unmet(g, ps, i) && x in g.known && DefinedBefore(g, ps, i, x) && !IsNoneLayout(g, x)
        ensures Real(g, x) in Available(g, ps, skips, i)
      {
        StepKeepsAvailable(g, ps, skips, i - 1, x);
      }
    }
  }

  lemma InputsAvailable(g: Graph, ps: seq<Partition>, skips: seq<bool>)
    requires Scheduled(g, ps) && |ps| == |skips|
    ensures UnmetAvailable(g, ps, skips, 0)
  {
    hide WellPlaced, Unmet;
  }

  /** No unallocated buffer is ever available. */
  lemma {:induction false} OnlyAllocated(g: Graph, ps: seq<Partition>, skips: seq<bool>, i: nat)
    requires Scheduled(g, ps) && i <= |ps| == |skips|
    ensures forall x :: x in Available(g, ps, skips, i) ==> !IsNoneLayout(g, x)
  {
    hide WellPlaced, ReturnedNames, InputNames, Unmet, Frees, Freed, IsNoneLayout, DefinedBefore;
    if i > 0 {
      OnlyAllocated(g, ps, skips, i - 1);
    }
  }

  /** A listed input is available when its partition runs exactly if it is allocated.  One that is
      not is listed only because the partition frees it. */
  lemma InputAvailable(g: Graph, ps: seq<Partition>, skips: seq<bool>, i: nat, x: Name)
    requires Scheduled(g, ps) && i < |ps| == |skips| && x in SignatureAt(g, ps, skips, i).inputs
    ensures x in Available(g, ps, skips, i) <==> !IsNoneLayout(g, x)
    ensures IsNoneLayout(g, x) ==> x in Frees(ps[i]) - Outputs(ps[i])
  {
    InputIsReal(g, ps, i, x);
    if IsNoneLayout(g, x) {
      OnlyAllocated(g, ps, skips, i);
    } else {
      RunKeepsAvailable(g, ps, skips, i);
      assert WellPlaced(g, ps, i);
      assert x in Unmet(g, ps, i);
    }
  }

  /** Every graph output is available at the end. */
  lemma OutputsAvailable(g: Graph, ps: seq<Partition>, skips: seq<bool>, x: Name)
    requires Scheduled(g, ps) && |ps| == |skips| && x in g.outputs && x in g.known && !IsNoneLayout(g, x)
    ensures Real(g, x) in Available(g, ps, skips, |ps|)
  {
    RunKeepsAvailable(g, ps, skips, |ps|);
  }

  /** The signatures are sound exactly when no partition frees an unallocated buffer that
      another partition produced: line 275 takes such a buffer as an input although line 312
      never returns one. */
  lemma SignaturesSound(g: Graph, ps: seq<Partition>, skips: seq<bool>)
    requires Scheduled(g, ps) && |ps| == |skips|
    ensures Sound(g, ps, skips) <==> FreesAllocated(g, ps)
  {
    hide Available, Unmet, WellPlaced, IsNoneLayout, Real, InputNames, ReturnedNames;
    forall x | x in g.outputs && x in g.known && !IsNoneLayout(g, x)
      ensures Real(g, x) in Available(g, ps, skips, |ps|)
    {
      OutputsAvailable(g, ps, skips, x);
    }
    if FreesAllocated(g, ps) {
      forall i, x | 0 <= i < |ps| && x in SignatureAt(g, ps, skips, i).inputs ensures x in Available(g, ps, skips, i) {
        InputAvailable(g, ps, skips, i, x);
      }
    } else {
      var i, x :| 0 <= i < |ps| && x in Frees(ps[i]) - Outputs(ps[i]) && x in g.known && IsNoneLayout(g, x);
      FreedIsInput(g, ps, skips, i, x);
      InputAvailable(g, ps, skips, i, x);
    }
  }

  lemma FreedIsInput(g: Graph, ps: seq<Partition>, skips: seq<bool>, i: nat, x: Name)
    requires Resolved(g) && i < |ps| == |skips| && x in Frees(ps[i]) - Outputs(ps[i]) && x in g.known
    ensures x in SignatureAt(g, ps, skips, i).inputs
  {
  }

  /** A partition that runs never misses a buffer it reads or writes: each is its own, or
      available, or not a buffer at all. */
  lemma ReadsAvailable(g: Graph, ps: seq<Partition>, skips: seq<bool>, i: nat, n: Name)
    requires Scheduled(g, ps) && i < |ps| == |skips|
    requires n in Uses(ps[i]) && !IsNoneLayout(g, n) && Real(g, n) in g.known
    ensures n in Outputs(ps[i]) || Real(g, n) in Available(g, ps, skips, i)
  {
    if n !in Outputs(ps[i]) {
      UsedIsInput(g, ps, skips, i, n);
      InputAvailable(g, ps, skips, i, Real(g, n));
      RealAllocated(g, n);
    }
  }

  lemma UsedIsInput(g: Graph, ps: seq<Partition>, skips: seq<bool>, i: nat, n: Name)
    requires Resolved(g) && i < |ps| == |skips|
    requires n in Uses(ps[i]) && n !in Outputs(ps[i]) && !IsNoneLayout(g, n) && Real(g, n) in g.known
    ensures Real(g, n) in SignatureAt(g, ps, skips, i).inputs
  {
    var direct := set m | m in Uses(ps[i]) - Outputs(ps[i]) && !IsNoneLayout(g, m);
    assert n in direct;
  }

  /** Each input of a partition is either freed by it or returned by it, never both. */
  lemma FreedOrReturned(g: Graph, ps: seq<Partition>, skips: seq<bool>, i: nat, x: Name)
    requires Scheduled(g, ps) && i < |ps| == |skips|
    requires x in SignatureAt(g, ps, skips, i).inputs
    ensures var s := SignatureAt(g, ps, skips, i);
            x in s.deallocation && (s.deallocation[x] <==> x !in s.outputs)
  {
    var p, unmet := ps[i], Unmet(g, ps, i + 1);
    InputIsReal(g, ps, i, x);
    assert WellPlaced(g, ps, i);
    if x in Frees(p) && x in ReturnedNames(g, p, unmet) {
      var y :| y in Outputs(p) * unmet + (InputNames(g, p) * g.known - Frees(p)) && Real(g, y) == x;
      if y in Outputs(p) * unmet {
        StillNeeded(g, ps, i, y);
      } else {
        InputIsReal(g, ps, i, y);
      }
      assert false;
    }
    if x !in Frees(p) {
      assert Real(g, x) in ReturnedNames(g, p, unmet);
    }
  }

  /** Nothing is returned in vain: what a partition returns is not freed by it, and is an input that
      it keeps, or the real name of one of its own outputs that is a graph output or an input of a
      later partition. */
  lemma OutputsNeeded(g: Graph, ps: seq<Partition>, skips: seq<bool>, i: nat, x: Name)
    requires Scheduled(g, ps) && i < |ps| == |skips| && x in SignatureAt(g, ps, skips, i).outputs
    ensures x !in Frees(ps[i]) && !IsNoneLayout(g, x)
    ensures x in SignatureAt(g, ps, skips, i).inputs ||
            exists y :: y in Outputs(ps[i]) && Real(g, y) == x && NeededAfter(g, ps, i, y)
  {
    var p, unmet := ps[i], Unmet(g, ps, i + 1);
    var y :| y in Outputs(p) * unmet + (InputNames(g, p) * g.known - Frees(p)) && Real(g, y) == x;
    if y in Outputs(p) * unmet {
      StillNeeded(g, ps, i, y);
      UnmetIsNeeded(g, ps, i + 1, y);
      assert NeededAfter(g, ps, i, y);
    } else {
      InputIsReal(g, ps, i, y);
    }
  }

  ghost predicate NeededAfter(g: Graph, ps: seq<Partition>, i: nat, y: Name)
    requires Resolved(g)
  {
    y in g.outputs || exists j :: i < j < |ps| && y in InputNames(g, ps[j])
  }

  /** The inputs are exactly the known buffers that the partition frees or, under their real names,
      reads or writes, and does not produce; for each of them, and nothing else, the signature says
      whether it is freed. */
  lemma InputsTouched(g: Graph, ps: seq<Partition>, skips: seq<bool>, i: nat, x: Name)
    requires Resolved(g) && i < |ps| == |skips|
    ensures x in SignatureAt(g, ps, skips, i).inputs <==>
            && x in g.known
            && (x in Frees(ps[i]) - Outputs(ps[i]) ||
                exists n :: n in Uses(ps[i]) && n !in Outputs(ps[i]) && !IsNoneLayout(g, n) && Real(g, n) == x)
    ensures var s := SignatureAt(g, ps, skips, i); s.deallocation.Keys == s.inputs && s.skipCudagraph == skips[i]
  {
    var p := ps[i];
    var direct := set n | n in Uses(p) - Outputs(p) && !IsNoneLayout(g, n);
    assert x in Reals(g, direct) <==>
           exists n :: n in Uses(p) && n !in Outputs(p) && !IsNoneLayout(g, n) && Real(g, n) == x;
  }

  /** The constants of a partition are exactly the constants it reads, writes or frees. */
  lemma ConstantsAreUsed(g: Graph, ps: seq<Partition>, skips: seq<bool>, i: nat, x: Name)
    requires Resolved(g) && i < |ps| == |skips|
    ensures x in SignatureAt(g, ps, skips, i).constants <==>
            && x in g.constants
            && ((x in g.known && x in Frees(ps[i]) - Outputs(ps[i])) ||
                exists n :: n in Uses(ps[i]) && n !in Outputs(ps[i]) && !IsNoneLayout(g, n) && Real(g, n) == x)
  {
    var p := ps[i];
    var direct := set n | n in Uses(p) - Outputs(p) && !IsNoneLayout(g, n);
    assert x in Reals(g, direct) <==>
           exists n :: n in Uses(p) && n !in Outputs(p) && !IsNoneLayout(g, n) && Real(g, n) == x;
  }

  /** Under the scheduler's guarantees every name that is returned has a node. */
  lemma NoKeyError(g: Graph, ps: seq<Partition>, skips: seq<bool>, i: nat)
    requires Scheduled(g, ps) && i < |ps| == |skips|
    ensures SignatureAt(g, ps, skips, i).outputs <= g.known
  {
    assert WellPlaced(g, ps, i);
  }

  // ----- the failing family is not empty

  function LeakyGraph(): Graph {
    Graph({}, {}, {1}, {}, map[1 := NoneLayout(false)], map[])
  }

  /** The second partition frees an unallocated buffer that the first produced. */
  function LeakyPartitions(): (ps: seq<Partition>)
    ensures |ps| == 2
  {
    [[Node({1}, {}, {}, {})], [Node({}, {1}, {}, {1})]]
  }

  lemma LeakyNames()
    ensures var ps := LeakyPartitions();
            && Outputs(ps[0]) == {1} && Outputs(ps[1]) == {}
            && Frees(ps[0]) == {} && Frees(ps[1]) == {1} && Uses(ps[0]) == {}
  {
    var ps := LeakyPartitions();
    assert ps[0][0] in ps[0] && ps[1][0] in ps[1];
  }

  lemma FreedNoneLayoutIsUnsound()
    ensures Scheduled(LeakyGraph(), LeakyPartitions())
    ensures !Sound(LeakyGraph(), LeakyPartitions(), [false, false])
  {
    hide Outputs, Frees, Uses, Sound;
    var g, ps := LeakyGraph(), LeakyPartitions();
    LeakyNames();
    assert InputNames(g, ps[0]) == {};
    assert 1 in Outputs(ps[0]);
    assert WellPlaced(g, ps, 0) && WellPlaced(g, ps, 1);
    assert 1 in Frees(ps[1]) - Outputs(ps[1]);
    SignaturesSound(g, ps, [false, false]);
  }
}
