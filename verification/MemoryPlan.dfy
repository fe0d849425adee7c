/** Memory planning over bracketed lines (memory_plan_reuse_patched in vllm/env_override.py).

    Lines between an Enter and its Exit form a subgraph with a planning state of its own.  The
    loop keeps the states of the open subgraphs on a stack; it is proved against a recursive
    plan over the tree of subgraphs.  What one planning line does to a state is a parameter. */
module MemoryPlan {
  import opened Common

  datatype Line<P> = Planning(node: string, payload: P) | Enter | Exit | Other(text: string)

  datatype Result<T> = Ok(value: T) | IndexError | AssertionError

  // ----- trimming

  predicate Pointless<P>(line: Line<P>, outNames: set<string>) {
    line.Planning? && line.node !in outNames
  }

  function Trimmed<P>(lines: seq<Line<P>>, outNames: set<string>): seq<Line<P>> {
    if lines != [] && Pointless(lines[|lines| - 1], outNames)
    then Trimmed(lines[..|lines| - 1], outNames)
    else lines
  }

  /** Trimming removes exactly the trailing planning lines that are not outputs. */
  lemma {:induction false} TrimmedIs<P>(lines: seq<Line<P>>, outNames: set<string>)
    ensures var t := Trimmed(lines, outNames);
            && t <= lines
            && (forall i :: |t| <= i < |lines| ==> lines[i].Planning? && lines[i].node !in outNames)
            && (t != [] && t[|t| - 1].Planning? ==> t[|t| - 1].node in outNames)
  {
    if lines != [] && Pointless(lines[|lines| - 1], outNames) {
      TrimmedIs(lines[..|lines| - 1], outNames);
    }
  }

  // ----- brackets

  /** Enters minus exits. */
  function Depth<P>(lines: seq<Line<P>>): int {
    if lines == [] then 0
    else Depth(lines[..|lines| - 1]) +
         match lines[|lines| - 1] { case Enter => 1 case Exit => -1 case _ => 0 }
  }

  ghost predicate Balanced<P>(lines: seq<Line<P>>) {
    && Depth(lines) == 0
    && forall n :: 0 <= n <= |lines| ==> Depth(lines[..n]) >= 0
  }

  lemma {:induction false} DepthConcat<P>(a: seq<Line<P>>, b: seq<Line<P>>)
    ensures Depth(a + b) == Depth(a) + Depth(b)
  {
    if b == [] {
      assert a + b == a;
    } else {
      assert (a + b)[..|a + b| - 1] == a + b[..|b| - 1];
      DepthConcat(a, b[..|b| - 1]);
    }
  }

  lemma DepthOne<P>(line: Line<P>)
    ensures Depth([line]) == match line { case Enter => 1 case Exit => -1 case _ => 0 }
  {
    assert [line][..0] == [];
  }

  lemma DepthStep<P>(lines: seq<Line<P>>, n: nat)
    requires n < |lines|
    ensures Depth(lines[..n + 1]) == Depth(lines[..n]) + Depth([lines[n]])
  {
    assert lines[..n + 1][..n] == lines[..n];
    DepthOne(lines[n]);
  }

  /** A part between two points of equal depth, with nothing below it between them. */
  lemma SliceBalanced<P>(lines: seq<Line<P>>, a: nat, b: nat)
    requires a <= b <= |lines| && Depth(lines[..a]) == Depth(lines[..b])
    requires forall n :: a <= n <= b ==> Depth(lines[..n]) >= Depth(lines[..a])
    ensures Balanced(lines[a..b])
  {
    hide Depth;
    var s := lines[a..b];
    forall n | 0 <= n <= |s| ensures Depth(s[..n]) == Depth(lines[..a + n]) - Depth(lines[..a]) {
      assert lines[..a + n] == lines[..a] + s[..n];
      DepthConcat(lines[..a], s[..n]);
    }
    assert s[..|s|] == s;
  }

  // ----- the tree of subgraphs

  datatype Block<P> = End | Step(line: Line<P>, rest: Block<P>) | Sub(body: Block<P>, rest: Block<P>)

  ghost predicate NoBrackets<P>(b: Block<P>) {
    match b
    case End => true
    case Step(line, rest) => !line.Enter? && !line.Exit? && NoBrackets(rest)
    case Sub(body, rest) => NoBrackets(body) && NoBrackets(rest)
  }

  ghost function Flatten<P>(b: Block<P>): seq<Line<P>> {
    match b
    case End => []
    case Step(line, rest) => [line] + Flatten(rest)
    case Sub(body, rest) => [Enter] + Flatten(body) + [Exit] + Flatten(rest)
  }

  /** Every balanced sequence of lines is a tree of subgraphs. */
  lemma {:induction false} TreeOf<P>(lines: seq<Line<P>>) returns (b: Block<P>)
    requires Balanced(lines)
    ensures NoBrackets(b) && Flatten(b) == lines
    decreases |lines|
  {
    hide Balanced;
    if lines == [] {
      return End;
    }
    if !lines[0].Enter? {
      SplitFirst(lines);
      var rest := TreeOf(lines[1..]);
      return Step(lines[0], rest);
    }
    var n := SplitSubgraph(lines);
    var body := TreeOf(lines[1..n]);
    var rest := TreeOf(lines[n + 1..]);
    return Sub(body, rest);
  }

  lemma SplitFirst<P>(lines: seq<Line<P>>)
    requires Balanced(lines) && lines != [] && !lines[0].Enter?
    ensures !lines[0].Exit? && Balanced(lines[1..]) && lines == [lines[0]] + lines[1..]
  {
    assert lines[..|lines|] == lines && lines[1..|lines|] == lines[1..];
    SliceBalanced(lines, 1, |lines|);
  }

  lemma SplitSubgraph<P>(lines: seq<Line<P>>) returns (n: nat)
    requires Balanced(lines) && lines != [] && lines[0].Enter?
    ensures 1 <= n < |lines| && Balanced(lines[1..n]) && Balanced(lines[n + 1..])
    ensures lines == [Enter] + lines[1..n] + [Exit] + lines[n + 1..]
  {
    n := MatchingExit(lines);
    assert lines[..|lines|] == lines && lines[n + 1..|lines|] == lines[n + 1..];
    SliceBalanced(lines, 1, n);
    SliceBalanced(lines, n + 1, |lines|);
  }

  lemma MatchingExit<P>(lines: seq<Line<P>>) returns (n: nat)
    requires Balanced(lines) && lines != [] && lines[0].Enter?
    ensures 1 <= n < |lines| && lines[n].Exit?
    ensures Depth(lines[..1]) == 1 == Depth(lines[..n]) && Depth(lines[..n + 1]) == 0
    ensures forall m :: 1 <= m <= n ==> Depth(lines[..m]) >= 1
  {
    DepthStep(lines, 0);
    assert lines[..0] == [] && lines[..|lines|] == lines;
    DepthOne(lines[0]);
    n := 1;
    while true
      invariant 1 <= n <= |lines|
      invariant forall m :: 1 <= m <= n ==> Depth(lines[..m]) >= 1
      decreases |lines| - n
    {
      DepthStep(lines, n);
      DepthOne(lines[n]);
      if Depth(lines[..n + 1]) == 0 {
        return;
      }
      n := n + 1;
    }
  }

  lemma {:induction false} TreeBalanced<P>(b: Block<P>)
    requires NoBrackets(b)
    ensures Balanced(Flatten(b))
  {
    match b
    case End =>
    case Step(line, rest) =>
      TreeBalanced(rest);
      DepthOne(line);
      ConcatBalanced([line], Flatten(rest));
    case Sub(body, rest) =>
      TreeBalanced(body);
      TreeBalanced(rest);
      WrapBalanced(Flatten(body));
      ConcatBalanced([Enter] + Flatten(body) + [Exit], Flatten(rest));
  }

  lemma ConcatBalanced<P>(a: seq<Line<P>>, b: seq<Line<P>>)
    requires Depth(a) == 0 && (forall n :: 0 <= n <= |a| ==> Depth(a[..n]) >= 0) && Balanced(b)
    ensures Balanced(a + b)
  {
    DepthConcat(a, b);
    forall n | 0 <= n <= |a + b| ensures Depth((a + b)[..n]) >= 0 {
      if n <= |a| {
        assert (a + b)[..n] == a[..n];
      } else {
        assert (a + b)[..n] == a + b[..n - |a|];
        DepthConcat(a, b[..n - |a|]);
      }
    }
  }

  lemma WrapBalanced<P>(a: seq<Line<P>>)
    requires Balanced(a)
    ensures Balanced([Enter] + a + [Exit])
  {
    var s := [Enter] + a + [Exit];
    DepthOne<P>(Enter);
    DepthOne<P>(Exit);
    DepthConcat([Enter], a);
    DepthConcat([Enter] + a, [Exit]);
    forall n | 0 <= n <= |s| ensures Depth(s[..n]) >= 0 {
      if n == 0 {
      } else if n <= |a| + 1 {
        assert s[..n] == [Enter] + a[..n - 1];
        DepthConcat([Enter], a[..n - 1]);
      } else {
        assert s[..n] == s;
      }
    }
  }

  // ----- planning

  /** The planned lines, the final planning state, and the states of the closed subgraphs. */
  datatype Planned<P, S> = Planned(lines: seq<Line<P>>, state: S, past: seq<S>)

  /** The meaning: the lines of a subgraph are planned in order with the subgraph's own state,
      which starts afresh and never mixes with the states around it. */
  ghost function PlanTree<P, S>(b: Block<P>, plan: (Line<P>, S) -> (Line<P>, S), init: S, state: S): Planned<P, S> {
    match b
    case End => Planned([], state, [])
    case Step(line, rest) =>
      var (line', state') := if line.Planning? then plan(line, state) else (line, state);
      var r := PlanTree(rest, plan, init, state');
      Planned([line'] + r.lines, r.state, r.past)
    case Sub(body, rest) =>
      var inner := PlanTree(body, plan, init, init);
      var r := PlanTree(rest, plan, init, state);
      Planned([Enter] + inner.lines + [Exit] + r.lines, r.state, inner.past + [inner.state] + r.past)
  }

  ghost function Join<P>(b: Block<P>, c: Block<P>): Block<P> {
    match b
    case End => c
    case Step(line, rest) => Step(line, Join(rest, c))
    case Sub(body, rest) => Sub(body, Join(rest, c))
  }

  lemma {:induction false} FlattenJoin<P>(b: Block<P>, c: Block<P>)
    ensures Flatten(Join(b, c)) == Flatten(b) + Flatten(c)
  {
    match b {
      case End =>
      case Step(line, rest) =>
        FlattenJoin(rest, c);
        ConcatAssoc([line], Flatten(rest), Flatten(c));
      case Sub(body, rest) =>
        FlattenJoin(rest, c);
        ConcatAssoc([Enter] + Flatten(body) + [Exit], Flatten(rest), Flatten(c));
    }
  }

  /** One plan and then another that starts with the state left. */
  ghost function Then<P, S>(p: Planned<P, S>, q: Planned<P, S>): Planned<P, S> {
    Planned(p.lines + q.lines, q.state, p.past + q.past)
  }

  lemma ThenThen<P, S>(p: Planned<P, S>, q: Planned<P, S>, r: Planned<P, S>)
    ensures Then(p, Then(q, r)) == Then(Then(p, q), r)
  {
  }

  lemma PlanCons<P, S>(b: Block<P>, plan: (Line<P>, S) -> (Line<P>, S), init: S, state: S)
    returns (first: Planned<P, S>)
    requires !b.End?
    ensures PlanTree(b, plan, init, state) == Then(first, PlanTree(b.rest, plan, init, first.state))
    ensures b.Step? ==> first == PlanTree(Step(b.line, End), plan, init, state)
    ensures b.Sub? ==> first == PlanTree(Sub(b.body, End), plan, init, state)
  {
    var end: Block<P> := End;
    match b {
      case Step(line, rest) =>
        var (line', state') := if line.Planning? then plan(line, state) else (line, state);
        first := PlanTree(Step(line, end), plan, init, state);
        assert PlanTree(end, plan, init, state') == Planned([], state', []);
        assert first == Planned([line'], state', []);
      case Sub(body, rest) =>
        first := PlanTree(Sub(body, end), plan, init, state);
        assert PlanTree(end, plan, init, state) == Planned([], state, []);
        var inner, r := PlanTree(body, plan, init, init), PlanTree(rest, plan, init, state);
        var lines, past := [Enter] + inner.lines + [Exit], inner.past + [inner.state];
        assert first == Planned(lines, state, past);
        assert PlanTree(b, plan, init, state) == Planned(lines + r.lines, r.state, past + r.past);
    }
  }

  /** Lines are planned in order: what follows starts with the state that was left. */
  lemma {:induction false} PlanJoin<P, S>(b: Block<P>, c: Block<P>, plan: (Line<P>, S) -> (Line<P>, S), init: S,
                                          state: S)
    ensures var p := PlanTree(b, plan, init, state);
            PlanTree(Join(b, c), plan, init, state) == Then(p, PlanTree(c, plan, init, p.state))
  {
    if !b.End? {
      hide PlanTree, Then;
      var first := PlanCons(b, plan, init, state);
      var first' := PlanCons(Join(b, c), plan, init, state);
      PlanJoin(b.rest, c, plan, init, first.state);
      var p := PlanTree(b.rest, plan, init, first.state);
      ThenThen(first, p, PlanTree(c, plan, init, p.state));
      ThenState(first, p);
    }
  }

  lemma ThenState<P, S>(p: Planned<P, S>, q: Planned<P, S>)
    ensures Then(p, q).state == q.state
  {
  }

  /** A subgraph is planned alike wherever it stands, and leaves the state around it as it was. */
  lemma SubgraphAlone<P, S>(body: Block<P>, plan: (Line<P>, S) -> (Line<P>, S), init: S, state: S, other: S)
    ensures var p, q := PlanTree(Sub(body, End), plan, init, state), PlanTree(Sub(body, End), plan, init, other);
            p.lines == q.lines && p.past == q.past && p.state == state
    ensures var p := PlanTree(Sub(body, End), plan, init, state);
            p.past != [] && p.past[|p.past| - 1] == PlanTree(body, plan, init, init).state
  {
  }

  /** One planning line is planned with the state it finds; other lines stay as they are. */
  lemma OneLine<P, S>(line: Line<P>, plan: (Line<P>, S) -> (Line<P>, S), init: S, state: S)
    ensures var p := PlanTree(Step(line, End), plan, init, state);
            && p.past == []
            && (line.Planning? ==> p.lines == [plan(line, state).0] && p.state == plan(line, state).1)
            && (!line.Planning? ==> p.lines == [line] && p.state == state)
  {
  }

  /** The result of the loop of lines 177-184: lines, remaining stack, popped states. */
  datatype Swept<P, S> = Swept(lines: seq<Line<P>>, stack: seq<S>, past: seq<S>)

  /** One turn of the loop: the replaced line, the new stack, and the popped state if any. */
  datatype Turned<P, S> = Turned(line: Line<P>, stack: seq<S>, popped: seq<S>)

  function Turn<P, S>(line: Line<P>, plan: (Line<P>, S) -> (Line<P>, S), init: S, stack: seq<S>): Result<Turned<P, S>> {
    match line
    case Planning(_, _) =>
      if stack == [] then IndexError
      else
        var (line', state') := plan(line, stack[|stack| - 1]);
        Ok(Turned(line', stack[..|stack| - 1] + [state'], []))
    case Enter => Ok(Turned(line, stack + [init], []))
    case Exit =>
      if stack == [] then IndexError
      else Ok(Turned(line, stack[..|stack| - 1], [stack[|stack| - 1]]))
    case Other(_) => Ok(Turned(line, stack, []))
  }

  function Sweep<P, S>(lines: seq<Line<P>>, plan: (Line<P>, S) -> (Line<P>, S), init: S, stack: seq<S>)
    : Result<Swept<P, S>>
  {
    if lines == [] then Ok(Swept([], stack, []))
    else
      var t := Turn(lines[0], plan, init, stack);
      if t.Ok? then After([t.value.line], t.value.popped, Sweep(lines[1..], plan, init, t.value.stack)) else IndexError
  }

  function After<P, S>(lines: seq<Line<P>>, past: seq<S>, r: Result<Swept<P, S>>): Result<Swept<P, S>> {
    if r.Ok? then Ok(Swept(lines + r.value.lines, r.value.stack, past + r.value.past)) else r
  }

  lemma AfterAfter<P, S>(a: seq<Line<P>>, p: seq<S>, b: seq<Line<P>>, q: seq<S>, r: Result<Swept<P, S>>)
    ensures After(a, p, After(b, q, r)) == After(a + b, p + q, r)
  {
    if r.Ok? {
      assert a + (b + r.value.lines) == (a + b) + r.value.lines;
      assert p + (q + r.value.past) == (p + q) + r.value.past;
    }
  }

  /** The loop on the lines of a block uses only the top of the stack, and leaves the stack
      with the block's final state in its place. */
  lemma {:induction false} SweepBlock<P, S>(b: Block<P>, after: seq<Line<P>>, plan: (Line<P>, S) -> (Line<P>, S),
                                           init: S, below: seq<S>, state: S)
    requires NoBrackets(b)
    ensures var t := PlanTree(b, plan, init, state);
            Sweep(Flatten(b) + after, plan, init, below + [state]) ==
            After(t.lines, t.past, Sweep(after, plan, init, below + [t.state]))
    decreases b
  {
    hide Sweep, After;
    var stack := below + [state];
    assert stack[..|stack| - 1] == below && stack[|stack| - 1] == state;
    match b
    case End =>
      assert Flatten(b) + after == after;
      AfterNothing(Sweep(after, plan, init, stack));
    case Step(line, rest) =>
      var (line', state') := if line.Planning? then plan(line, state) else (line, state);
      var r := PlanTree(rest, plan, init, state');
      assert Flatten(b) + after == [line] + (Flatten(rest) + after);
      SweepCons(line, Flatten(rest) + after, plan, init, stack);
      SweepBlock(rest, after, plan, init, below, state');
      AfterAfter([line'], [], r.lines, r.past, Sweep(after, plan, init, below + [r.state]));
      assert [] + r.past == r.past;
    case Sub(body, rest) =>
      SweepSub(body, rest, after, plan, init, stack);
      SweepBlock(body, [Exit] + (Flatten(rest) + after), plan, init, stack, init);
      SweepBlock(rest, after, plan, init, below, state);
      var inner, r := PlanTree(body, plan, init, init), PlanTree(rest, plan, init, state);
      var last := Sweep(after, plan, init, below + [r.state]);
      SweepExit(Flatten(rest) + after, plan, init, stack, inner.state);
      JoinSub(inner, r, last);
  }

  lemma SweepCons<P, S>(line: Line<P>, rest: seq<Line<P>>, plan: (Line<P>, S) -> (Line<P>, S), init: S, stack: seq<S>)
    ensures var t := Turn(line, plan, init, stack);
            t.Ok? ==> Sweep([line] + rest, plan, init, stack) ==
                      After([t.value.line], t.value.popped, Sweep(rest, plan, init, t.value.stack))
  {
    assert ([line] + rest)[1..] == rest;
  }

  lemma SweepSub<P, S>(body: Block<P>, rest: Block<P>, after: seq<Line<P>>,
                       plan: (Line<P>, S) -> (Line<P>, S), init: S, stack: seq<S>)
    ensures Sweep(Flatten(Sub(body, rest)) + after, plan, init, stack) ==
            After([Enter], [], Sweep(Flatten(body) + ([Exit] + (Flatten(rest) + after)), plan, init, stack + [init]))
  {
    var tail := Flatten(body) + ([Exit] + (Flatten(rest) + after));
    assert Flatten(Sub(body, rest)) + after == [Enter] + tail;
    SweepCons(Enter, tail, plan, init, stack);
  }

  lemma JoinSub<P, S>(inner: Planned<P, S>, r: Planned<P, S>, last: Result<Swept<P, S>>)
    ensures After([Enter], [], After(inner.lines, inner.past,
              After([Exit], [inner.state], After(r.lines, r.past, last)))) ==
            After([Enter] + inner.lines + [Exit] + r.lines, inner.past + [inner.state] + r.past, last)
  {
    hide After;
    AfterAfter([Exit], [inner.state], r.lines, r.past, last);
    AfterAfter(inner.lines, inner.past, [Exit] + r.lines, [inner.state] + r.past, last);
    AfterAfter([Enter], [], inner.lines + ([Exit] + r.lines), inner.past + ([inner.state] + r.past), last);
    assert [Enter] + (inner.lines + ([Exit] + r.lines)) == [Enter] + inner.lines + [Exit] + r.lines;
    assert [] + (inner.past + ([inner.state] + r.past)) == inner.past + [inner.state] + r.past;
  }

  lemma AfterNothing<P, S>(r: Result<Swept<P, S>>)
    ensures After([], [], r) == r
  {
    if r.Ok? {
      assert [] + r.value.lines == r.value.lines && [] + r.value.past == r.value.past;
    }
  }

  lemma SweepExit<P, S>(lines: seq<Line<P>>, plan: (Line<P>, S) -> (Line<P>, S), init: S, stack: seq<S>, top: S)
    ensures Sweep([Exit] + lines, plan, init, stack + [top]) == After([Exit], [top], Sweep(lines, plan, init, stack))
  {
    assert ([Exit] + lines)[1..] == lines;
    assert (stack + [top])[..|stack|] == stack;
  }

  /** Refinement: on balanced lines the stack loop computes the tree plan; it never underflows
      and ends with the one state of the whole graph. */
  lemma SweepRefinesTree<P, S>(lines: seq<Line<P>>, plan: (Line<P>, S) -> (Line<P>, S), init: S) returns (b: Block<P>)
    requires Balanced(lines)
    ensures NoBrackets(b) && Flatten(b) == lines
    ensures var t := PlanTree(b, plan, init, init);
            Sweep(lines, plan, init, [init]) == Ok(Swept(t.lines, [t.state], t.past))
  {
    b := TreeOf(lines);
    var t := PlanTree(b, plan, init, init);
    SweepBlock(b, [], plan, init, [], init);
    assert Flatten(b) + [] == lines && [] + [init] == [init] && [] + [t.state] == [t.state];
    assert t.lines + [] == t.lines && t.past + [] == t.past;
  }

  // ----- when the loop succeeds

  /** With `open` states on the stack: no exit without a state to pop, no planning line
      without a state to plan with. */
  ghost predicate Guarded<P>(lines: seq<Line<P>>, open: int) {
    forall n :: 0 <= n <= |lines| ==> GuardedAt(lines, open, n)
  }

  ghost predicate GuardedAt<P>(lines: seq<Line<P>>, open: int, n: nat)
    requires n <= |lines|
  {
    && open + Depth(lines[..n]) >= 0
    && (n < |lines| && lines[n].Planning? ==> open + Depth(lines[..n]) >= 1)
  }

  lemma GuardedShift<P>(lines: seq<Line<P>>, open: int, n: nat)
    requires 0 < n <= |lines|
    ensures GuardedAt(lines, open, n) <==> GuardedAt(lines[1..], open + Depth([lines[0]]), n - 1)
  {
    assert lines[..n] == [lines[0]] + lines[1..][..n - 1];
    DepthConcat([lines[0]], lines[1..][..n - 1]);
  }

  lemma GuardedStep<P>(lines: seq<Line<P>>, open: int)
    requires lines != []
    ensures Guarded(lines, open) <==>
            && open >= 0 && (lines[0].Planning? ==> open >= 1)
            && Guarded(lines[1..], open + Depth([lines[0]]))
    ensures Depth(lines) == Depth([lines[0]]) + Depth(lines[1..])
  {
    var rest, open' := lines[1..], open + Depth([lines[0]]);
    assert lines == [lines[0]] + rest;
    DepthConcat([lines[0]], rest);
    assert lines[..0] == [];
    assert GuardedAt(lines, open, 0) <==> open >= 0 && (lines[0].Planning? ==> open >= 1);
    GuardedTail(lines, open);
  }

  lemma GuardedTail<P>(lines: seq<Line<P>>, open: int)
    requires lines != []
    ensures Guarded(lines, open) <==> GuardedAt(lines, open, 0) && Guarded(lines[1..], open + Depth([lines[0]]))
  {
    hide Depth, GuardedAt;
    var rest, open' := lines[1..], open + Depth([lines[0]]);
    if Guarded(lines, open) {
      forall n | 0 <= n <= |rest| ensures GuardedAt(rest, open', n) {
        GuardedShift(lines, open, n + 1);
      }
    }
    if GuardedAt(lines, open, 0) && Guarded(rest, open') {
      forall n | 0 <= n <= |lines| ensures GuardedAt(lines, open, n) {
        if n > 0 {
          GuardedShift(lines, open, n);
        }
      }
    }
  }

  lemma TurnDepth<P, S>(line: Line<P>, plan: (Line<P>, S) -> (Line<P>, S), init: S, stack: seq<S>)
    ensures var t := Turn(line, plan, init, stack);
            && !t.AssertionError?
            && (t.Ok? <==> (line.Planning? || line.Exit? ==> stack != []))
            && (t.Ok? ==> |t.value.stack| == |stack| + Depth([line]))
    ensures line.Exit? ==> Depth([line]) == -1
  {
    DepthOne(line);
  }

  lemma {:induction false} SweepSucceeds<P, S>(lines: seq<Line<P>>, plan: (Line<P>, S) -> (Line<P>, S), init: S,
                                               stack: seq<S>)
    ensures var r := Sweep(lines, plan, init, stack);
            && (r.Ok? <==> Guarded(lines, |stack|))
            && (r.Ok? ==> |r.value.stack| == |stack| + Depth(lines))
            && !r.AssertionError?
    decreases |lines|
  {
    if lines != [] {
      hide Guarded, Depth, Turn;
      var t := Turn(lines[0], plan, init, stack);
      GuardedStep(lines, |stack|);
      TurnDepth(lines[0], plan, init, stack);
      if t.Ok? {
        SweepSucceeds(lines[1..], plan, init, t.value.stack);
      } else {
        GuardedNegative(lines[1..], |stack| + Depth([lines[0]]));
      }
    } else {
      assert lines[..0] == [];
    }
  }

  lemma GuardedNegative<P>(lines: seq<Line<P>>, open: int)
    ensures open < 0 ==> !Guarded(lines, open)
  {
    assert lines[..0] == [];
    assert open < 0 ==> !GuardedAt(lines, open, 0);
  }

  /** Balanced lines stay balanced when trimmed, and always succeed. */
  lemma {:induction false} TrimmedBalanced<P>(lines: seq<Line<P>>, outNames: set<string>)
    requires Balanced(lines)
    ensures Balanced(Trimmed(lines, outNames)) && Guarded(Trimmed(lines, outNames), 1)
  {
    if lines != [] && Pointless(lines[|lines| - 1], outNames) {
      var init := lines[..|lines| - 1];
      forall n | 0 <= n <= |init| ensures Depth(init[..n]) >= 0 {
        assert init[..n] == lines[..n];
      }
      TrimmedBalanced(init, outNames);
    }
  }

  /** The final assertion does not reject every unbalanced sequence: an exit before its enter
      passes, as long as nothing is planned in between. */
  lemma UnbalancedAccepted<P>()
    ensures Guarded<P>([Exit, Enter], 1) && Depth<P>([Exit, Enter]) == 0 && !Balanced<P>([Exit, Enter])
  {
    var lines: seq<Line<P>> := [Exit, Enter];
    DepthOne<P>(Exit);
    DepthOne<P>(Enter);
    assert lines[..0] == [] && lines[..1] == [Exit] && lines[..2] == lines;
    DepthStep(lines, 1);
    assert Depth(lines[..1]) == -1;
    forall n | 0 <= n <= |lines| ensures GuardedAt(lines, 1, n) {
      assert n == 0 || n == 1 || n == 2;
    }
  }

  lemma SweepTurn<P, S>(done: seq<Line<P>>, past: seq<S>, lines: seq<Line<P>>, i: nat,
                        plan: (Line<P>, S) -> (Line<P>, S), init: S, stack: seq<S>)
    requires i < |lines|
    ensures var t := Turn(lines[i], plan, init, stack);
            var r := After(done, past, Sweep(lines[i..], plan, init, stack));
            if t.Ok? then
              r == After(done + [t.value.line], past + t.value.popped, Sweep(lines[i + 1..], plan, init, t.value.stack))
            else r == IndexError
  {
    var t := Turn(lines[i], plan, init, stack);
    assert lines[i..][1..] == lines[i + 1..];
    if t.Ok? {
      AfterAfter(done, past, [t.value.line], t.value.popped, Sweep(lines[i + 1..], plan, init, t.value.stack));
    }
  }

  // ----- the method

  /** The part of the wrapper generator that holds the lines. */
  class Wrapper<P, S> {
    var lines: seq<Line<P>>

    constructor (lines: seq<Line<P>>)
      ensures this.lines == lines
    {
      this.lines := lines;
    }

    /** memory_plan_reuse_patched; returns the popped states.  It succeeds exactly when the
        brackets close and no line finds the stack empty, and then the lines are replaced as
        the loop specification says. */
    method MemoryPlanReuse(outNames: set<string>, plan: (Line<P>, S) -> (Line<P>, S), init: S)
      returns (r: Result<seq<S>>)
      modifies this
      ensures r.Ok? <==> Guarded(Trimmed(old(lines), outNames), 1) && Depth(Trimmed(old(lines), outNames)) == 0
      ensures r.Ok? ==>
                var s := Sweep(Trimmed(old(lines), outNames), plan, init, [init]);
                s.Ok? && |s.value.stack| == 1 && lines == s.value.lines && r.value == s.value.past + s.value.stack
      ensures r.AssertionError? <==>
              Guarded(Trimmed(old(lines), outNames), 1) && Depth(Trimmed(old(lines), outNames)) > 0
      ensures |lines| == |Trimmed(old(lines), outNames)|
    {
      hide Guarded, Depth, Sweep, After;
      while lines != [] && Pointless(lines[|lines| - 1], outNames)
        invariant Trimmed(lines, outNames) == Trimmed(old(lines), outNames)
        decreases |lines|
      {
        lines := lines[..|lines| - 1];
      }
      ghost var trimmed := lines;
      ghost var total := Sweep(trimmed, plan, init, [init]);
      SweepSucceeds(trimmed, plan, init, [init]);
      AfterNothing(total);
      assert trimmed[0..] == trimmed && trimmed[..0] == [];
      var states := [init];
      var past: seq<S> := [];
      for i := 0 to |lines|
        invariant |lines| == |trimmed| && lines[i..] == trimmed[i..]
        invariant total == After(lines[..i], past, Sweep(trimmed[i..], plan, init, states))
      {
        var line := lines[i];
        ghost var before := lines;
        assert lines[i..][0] == trimmed[i..][0];
        SweepTurn(lines[..i], past, trimmed, i, plan, init, states);
        match line {
          case Planning(_, _) =>
            if states == [] {
              return IndexError;
            }
            var (line', state') := plan(line, states[|states| - 1]);
            states := states[..|states| - 1] + [state'];
            lines := lines[i := line'];
          case Enter =>
            states := states + [init];
          case Exit =>
            if states == [] {
              return IndexError;
            }
            past := past + [states[|states| - 1]];
            states := states[..|states| - 1];
          case Other(_) =>
        }
        assert lines[..i + 1] == before[..i] + [lines[i]];
        assert past + [] == past;
        assert lines[i + 1..] == before[i..][1..];
      }
      SweepEnd(lines, past, trimmed[|lines|..], plan, init, states);
      if states == [] {
        return IndexError;
      }
      past := past + [states[|states| - 1]];
      states := states[..|states| - 1];
      if states != [] {
        return AssertionError;
      }
      return Ok(past);
    }
  }

  lemma SweepEnd<P, S>(lines: seq<Line<P>>, past: seq<S>, rest: seq<Line<P>>,
                       plan: (Line<P>, S) -> (Line<P>, S), init: S, stack: seq<S>)
    requires rest == []
    ensures lines[..|lines|] == lines
    ensures After(lines, past, Sweep(rest, plan, init, stack)) == Ok(Swept(lines, stack, past))
  {
    assert lines + [] == lines && past + [] == past;
  }
}
