/** A loop whose primary is too narrow: the closed form goes wrong in its third iteration. */
module IvBoundary {
  import opened IR
  import opened Semantics
  import opened Renaming
  import opened Paths
  import opened ModMath
  import opened IvMath
  import opened IvSpec
  import opened IvSound
  import opened IvRuns
  import opened IvLoops

  // ----- The loop -----

  const COUNTER: Phi := Phi(0, IntTy(2), [(0, Const(0)), (1, Ref(2))])
  const COUNT: Instr := Instr(2, Arith(Add, 2), [Ref(0), Const(1)])

  /** Leaves the loop when the counter is 2. */
  const UNTIL_TWO: Term := Term(Switch([2]), [Ref(0)], [1, 2])

  function Variable(s: int): Phi { Phi(1, IntTy(8), [(0, Const(s)), (1, Ref(3))]) }

  function Advance(r: Reg, d: int): Instr { Instr(3, Arith(Add, 8), [Ref(r), Const(d)]) }

  function Header(s: int, d: int): Block { Block([COUNTER, Variable(s)], [COUNT, Advance(1, d)], UNTIL_TWO) }

  const ENTRY: Block := Block([], [], Term(Uncond, [], [1]))
  const EXIT: Block := Block([], [], Term(Return, [Ref(3)], []))

  /** The loop {1} counts to 2 with two bits and adds d to an 8-bit variable that starts at s; the
      function returns what the variable has become. */
  function Example(s: int, d: int): Func { Func([0, 1, 2], map[0 := ENTRY, 1 := Header(s, d), 2 := EXIT]) }

  const LOOP: Loop := Loop(1, [1])

  function ScevsOf(s: int, d: int): Scevs { map[0 := AddRec(true, Some(0), Some(1)), 1 := AddRec(true, Some(s), Some(d))] }

  const PRIM: Rec := Rec(0, 2, 0, 1)

  function Derived(s: int, d: int): Rec { Rec(1, 8, s, d) }

  lemma Powers()
    ensures Pow2(1) == 2 && Pow2(2) == 4 && Pow2(8) == 256
  {
    assert Pow2(4) == 16;
  }

  // ----- What the pass makes of it -----

  function NewHeader(s: int, d: int): Block {
    Block([COUNTER], NewInstrs(PRIM, Derived(s, d), 4) + [COUNT, Advance(6, d)], UNTIL_TWO)
  }

  function Processed(s: int, d: int): Func { Func([0, 1, 2], map[0 := ENTRY, 1 := NewHeader(s, d), 2 := EXIT]) }

  lemma Choices(s: int, d: int)
    ensures PrimaryOf(ScevsOf(s, d), [COUNTER, Variable(s)]) == Some(COUNTER)
    ensures DerivedOf(ScevsOf(s, d), 0, [COUNTER, Variable(s)]) == [Variable(s)]
  {
    var phis := [COUNTER, Variable(s)];
    assert phis[..1] == [COUNTER] && phis[..1][..0] == [];
    assert DerivedOf(ScevsOf(s, d), 0, phis[..1]) == [];
  }

  function Before(s: int, d: int): Func { WithNew(Example(s, d), 1, NewInstrs(PRIM, Derived(s, d), 4)) }

  function Rewritten(s: int, d: int): Func { Rewrite(Example(s, d), LOOP, PRIM, Derived(s, d), 4) }

  lemma NewBody(s: int, d: int)
    ensures NewInstrs(PRIM, Derived(s, d), 4) ==
      [Instr(4, Arith(SExt(2), 8), [Ref(0)]), Instr(5, Arith(Mul, 8), [Ref(4), Const(d)]), Instr(6, Arith(Add, 8), [Const(s), Ref(5)])]
  {
  }

  lemma RewrittenIs(s: int, d: int)
    ensures Rewritten(s, d) == Func([0, 1, 2],
      map[0 := ENTRY, 1 := NewHeader(s, d).(phis := [COUNTER, Variable(s)]), 2 := EXIT])
  {
    var m: map<Reg, Reg> := map[1 := 6];
    var new' := NewInstrs(PRIM, Derived(s, d), 4);
    NewStays(PRIM, Derived(s, d), 4, 1, 6);
    ReplaceAppend(m, new', [COUNT, Advance(1, d)]);
    assert SubOps(m, [Ref(0), Const(1)]) == [Ref(0), Const(1)] && SubOps(m, [Ref(1), Const(d)]) == [Ref(6), Const(d)];
    assert ReplaceBody(m, [COUNT, Advance(1, d)]) == [COUNT, Advance(6, d)];
    assert SubIncoming(m, COUNTER.incoming) == COUNTER.incoming && SubIncoming(m, Variable(s).incoming) == Variable(s).incoming;
    assert SubPhis(m, [COUNTER, Variable(s)]) == [COUNTER, Variable(s)];
    assert SubOps(m, [Ref(0)]) == [Ref(0)];
  }

  lemma VariableUsed(s: int, d: int)
    ensures UsedInLoop(Before(s, d), [1], 1)
  {
    NewBody(s, d);
    assert UsedAt(Before(s, d), Site(1, 6, 0), 1);
    assert Site(1, 6, 0) in UseSites(Before(s, d), 1);
  }

  lemma VariableUse(s: int, d: int, u: Site)
    ensures !UsedAt(Rewritten(s, d), u, 1)
  {
    NewBody(s, d);
    RewrittenIs(s, d);
    if u.l == 0 {
    } else if u.l == 1 {
    } else {
    }
  }

  lemma VariableUnused(s: int, d: int)
    ensures UseEmpty(Rewritten(s, d), 1)
  {
    forall u
      ensures !UsedAt(Rewritten(s, d), u, 1)
    {
      VariableUse(s, d, u);
    }
  }

  lemma OneRewritten(s: int, d: int)
    ensures RewriteAll(Progress(Example(s, d), 4, {}), LOOP, PRIM, ScevsOf(s, d), [Variable(s)]) == Progress(Rewritten(s, d), 7, {1})
  {
    VariableUsed(s, d);
    VariableUnused(s, d);
    assert [Variable(s)][..0] == [];
    assert {} + {1} == {1};
  }

  lemma VariableErased(s: int, d: int)
    ensures ErasePhis(Rewritten(s, d), 1, {1}) == Processed(s, d)
  {
    RewrittenIs(s, d);
    var phis := [COUNTER, Variable(s)];
    assert phis[1..] == [Variable(s)] && phis[1..][1..] == [];
    assert WithoutPhis(phis[1..], {1}) == [];
    assert WithoutPhis(phis, {1}) == [COUNTER];
  }

  lemma ProcessedIs(s: int, d: int)
    ensures ProcessLoop(Example(s, d), LOOP, ScevsOf(s, d), 4) == (Processed(s, d), 7)
  {
    Choices(s, d);
    OneRewritten(s, d);
    VariableErased(s, d);
    assert RecOf(ScevsOf(s, d), COUNTER) == PRIM;
  }

  // ----- What is assumed of the function holds -----

  lemma ExampleBelow(s: int, d: int)
    ensures RegsBelow(Example(s, d), 4)
  {
  }

  lemma ExampleEdges(s: int, d: int, a: Label, b: Label)
    ensures Example(s, d).Edge(a, b) <==> (a == 0 && b == 1) || (a == 1 && (b == 1 || b == 2))
  {
  }

  lemma ExampleUses(s: int, d: int, u: Site, r: Reg)
    requires UsedAt(Example(s, d), u, r)
    ensures r <= 3
  {
  }

  lemma ExampleDefs(s: int, d: int)
    ensures UniqueDefs(Example(s, d)) && RefsDefined(Example(s, d))
  {
    var f := Example(s, d);
    assert DefinedAt(f, 1, 0, 0) && DefinedAt(f, 1, 1, 1) && DefinedAt(f, 1, 2, 2) && DefinedAt(f, 1, 3, 3);
    forall u, r | UsedAt(f, u, r)
      ensures exists l, i :: DefinedAt(f, l, i, r)
    {
      ExampleUses(s, d, u, r);
    }
  }

  lemma HeaderCovered(s: int, d: int)
    ensures PhisCover(Example(s, d), 1)
  {
    var f := Example(s, d);
    forall i, p | 0 <= i < 2
      ensures Lists(f.blocks[1].phis[i].incoming, p) <==> f.Edge(p, 1)
    {
      ExampleEdges(s, d, p, 1);
      assert f.blocks[1].phis[i].incoming[0].0 == 0 && f.blocks[1].phis[i].incoming[1].0 == 1;
    }
  }

  lemma ExampleWellFormed(s: int, d: int)
    ensures WellFormed(Example(s, d))
  {
    var f := Example(s, d);
    ExampleDefs(s, d);
    HeaderCovered(s, d);
    assert forall l :: l in f.blocks ==> TermOk(f, f.blocks[l].term);
  }

  // ----- The run before the pass -----

  lemma EntryRuns(w: World, f: Func)
    requires f.order == [0, 1, 2] && 0 in f.blocks && f.blocks[0] == ENTRY
    ensures Run(w, f, 0) == At(0, 0, map[], w.mem0) && Run(w, f, 1) == At(0, 1, map[], w.mem0)
  {
    RunNext(w, f, 0, 1);
  }

  lemma ExitRuns(w: World, f: Func, e: Env)
    requires 2 in f.blocks && f.blocks[2] == EXIT
    ensures Step(w, f, At(1, 2, e, w.mem0)) == Done([Get(e, 3)], w.mem0)
  {
    assert Vals(w, [Ref(3)], e) == [Get(e, 3)];
  }

  lemma LeaveHeader(w: World, e: Env)
    ensures Leave(w, UNTIL_TWO, 1, e, w.mem0) == At(1, if Get(e, 0) == 2 then 2 else 1, e, w.mem0)
  {
    assert Vals(w, [Ref(0)], e) == [Get(e, 0)];
    var two: seq<int> := [2];
    assert two[1..] == [] && CaseIndex(two, Get(e, 0)) == if Get(e, 0) == 2 then 0 else 1;
  }

  lemma CounterEntry(w: World, prev: Label, e: Env)
    requires prev == 0 || prev == 1
    ensures Val(w, Incoming(COUNTER.incoming, prev), e) == if prev == 0 then 0 else Get(e, 2)
  {
    assert COUNTER.incoming[1..][0] == (1, Ref(2));
  }

  lemma VariableEntry(w: World, s: int, prev: Label, e: Env)
    requires prev == 0 || prev == 1
    ensures Val(w, Incoming(Variable(s).incoming, prev), e) == if prev == 0 then s else Get(e, 3)
  {
    assert Variable(s).incoming[1..][0] == (1, Ref(3));
  }

  lemma LastPhi(w: World, p: Phi, prev: Label, src: Env, acc: Env)
    ensures EvalPhis(w, [p], prev, src, acc) == acc[p.dst := Val(w, Incoming(p.incoming, prev), src)]
  {
    assert [p][1..] == [];
  }

  lemma HeaderPhis(w: World, s: int, prev: Label, e: Env, x: int, y: int)
    requires prev == 0 || prev == 1
    requires x == (if prev == 0 then 0 else Get(e, 2)) && y == if prev == 0 then s else Get(e, 3)
    ensures EvalPhis(w, [COUNTER, Variable(s)], prev, e, e) == e[0 := x][1 := y]
  {
    CounterEntry(w, prev, e);
    VariableEntry(w, s, prev, e);
    assert [COUNTER, Variable(s)][1..] == [Variable(s)];
    LastPhi(w, Variable(s), prev, e, e[0 := x]);
  }

  /** Counting and advancing, with the variable's value in r. */
  lemma BodyRuns(w: World, r: Reg, d: int, e: Env, x: int, y: int)
    requires Computes(w) && r != 2 && Get(e, 0) == x && Get(e, r) == y
    ensures ExecBody(w, [COUNT, Advance(r, d)], e, w.mem0) == Ran(e[2 := Norm(x + 1, 2)][3 := Norm(y + d, 8)], w.mem0)
  {
    var e1 := e[2 := Norm(x + 1, 2)];
    assert Vals(w, COUNT.args, e) == [x, 1] && Vals(w, Advance(r, d).args, e1) == [y, d];
    TwoInstrs(w, COUNT, Advance(r, d), e, w.mem0, Norm(x + 1, 2), Norm(y + d, 8));
  }

  lemma HeaderRuns(w: World, s: int, d: int, prev: Label, e: Env, x: int, y: int)
    requires Computes(w) && (prev == 0 || prev == 1)
    requires x == (if prev == 0 then 0 else Get(e, 2)) && y == if prev == 0 then s else Get(e, 3)
    ensures StepBlock(w, Header(s, d), prev, 1, e, w.mem0) ==
      At(1, if x == 2 then 2 else 1, e[0 := x][1 := y][2 := Norm(x + 1, 2)][3 := Norm(y + d, 8)], w.mem0)
  {
    HeaderPhis(w, s, prev, e, x, y);
    BodyRuns(w, 1, d, e[0 := x][1 := y], x, y);
    LeaveHeader(w, e[0 := x][1 := y][2 := Norm(x + 1, 2)][3 := Norm(y + d, 8)]);
  }

  /** The registers when the header is entered after k iterations: the counter is about to be k and
      the variable start + k * step. */
  ghost predicate Arrives(w: World, s: int, d: int, k: nat, c: Config) {
    && c.At? && c.cur == 1 && c.mem == w.mem0 && c.prev == (if k == 0 then 0 else 1)
    && (k > 0 ==> Get(c.env, 2) == k && Get(c.env, 3) == Recurrence(s, d, 8, k))
  }

  lemma Advances(s: int, d: int, k: nat)
    ensures Norm(Recurrence(s, d, 8, k) + d, 8) == Recurrence(s, d, 8, k + 1)
  {
    var x := s + k * d;
    ModAddRight(d, x, Pow2(8));
    assert s + (k + 1) * d == d + x;
  }

  lemma SmallNorms(s: int, d: int)
    requires 0 <= s < 256
    ensures Norm(1, 2) == 1 && Norm(2, 2) == 2 && Norm(3, 2) == 3 && Norm(0, 2) == 0
    ensures Recurrence(s, d, 8, 0) == s
  {
    Powers();
  }

  lemma ArriveNext(w: World, s: int, d: int, k: nat, c: Config)
    requires Computes(w) && 0 <= s < 256 && k <= 2 && Arrives(w, s, d, k, c)
    ensures var c' := Step(w, Example(s, d), c);
      if k < 2 then Arrives(w, s, d, k + 1, c')
      else c'.At? && c'.cur == 2 && c'.prev == 1 && c'.mem == w.mem0 && Get(c'.env, 3) == Recurrence(s, d, 8, 3)
    ensures Get(PhiEnv(w, Example(s, d), c), 0) == k && Get(PhiEnv(w, Example(s, d), c), 1) == Recurrence(s, d, 8, k)
  {
    var y := Recurrence(s, d, 8, k);
    SmallNorms(s, d);
    Advances(s, d, k);
    HeaderRuns(w, s, d, c.prev, c.env, k, y);
    HeaderPhis(w, s, c.prev, c.env, k, y);
  }

  /** The header is entered for the k-th time after k + 1 blocks. */
  lemma {:induction false} Visit(w: World, s: int, d: int, k: nat, n: nat)
    requires Computes(w) && 0 <= s < 256 && k <= 2 && n == k + 1
    ensures Arrives(w, s, d, k, Run(w, Example(s, d), n))
  {
    if k == 0 {
      EntryRuns(w, Example(s, d));
    } else {
      Visit(w, s, d, k - 1, n - 1);
      ArriveNext(w, s, d, k - 1, Run(w, Example(s, d), n - 1));
      RunNext(w, Example(s, d), n - 1, n);
    }
  }

  lemma Leaves(w: World, s: int, d: int, n: nat)
    requires Computes(w) && 0 <= s < 256 && n == 4
    ensures Run(w, Example(s, d), n).At? && Run(w, Example(s, d), n).cur == 2
    ensures Run(w, Example(s, d), n + 1) == Done([Recurrence(s, d, 8, 3)], w.mem0)
  {
    var f := Example(s, d);
    Visit(w, s, d, 2, n - 1);
    ArriveNext(w, s, d, 2, Run(w, f, n - 1));
    RunNext(w, f, n - 1, n);
    RunNext(w, f, n, n + 1);
    ExitRuns(w, f, Run(w, f, n).env);
  }

  // ----- Scalar evolution is right, and the loop has three iterations -----

  lemma ExampleHeaderOnly(w: World, s: int, d: int, n: nat)
    requires Computes(w) && 0 <= s < 256
    ensures AtHeader(w, Example(s, d), 1, n) <==> 1 <= n <= 3
  {
    if n == 0 {
      EntryRuns(w, Example(s, d));
    } else if n <= 3 {
      Visit(w, s, d, n - 1, n);
    } else if n == 4 {
      Leaves(w, s, d, n);
    } else {
      Leaves(w, s, d, 4);
      HaltedStays(w, Example(s, d), 5, n);
    }
  }

  lemma {:induction false} ExampleIteration(w: World, s: int, d: int, n: nat)
    requires Computes(w) && 0 <= s < 256 && 1 <= n <= 3
    ensures Iteration(w, Example(s, d), LOOP, n) == n - 1
  {
    ExampleHeaderOnly(w, s, d, n);
    Visit(w, s, d, n - 1, n);
    if n > 1 {
      ExampleIteration(w, s, d, n - 1);
    }
  }

  /** The counter has no wrap in three iterations. */
  lemma CounterIs(k: nat)
    requires k < 3
    ensures Recurrence(0, 1, 2, k) == k
  {
    Powers();
    ResidueIs(0 + k * 1, 0, k, 4);
  }

  lemma ExampleValues(w: World, s: int, d: int, n: nat)
    requires Computes(w) && 0 <= s < 256 && AtHeader(w, Example(s, d), 1, n)
    ensures var e, k := PhiEnv(w, Example(s, d), Run(w, Example(s, d), n)), Iteration(w, Example(s, d), LOOP, n);
      k < 3 && Get(e, 0) == Recurrence(0, 1, 2, k) && Get(e, 1) == Recurrence(s, d, 8, k)
  {
    ExampleHeaderOnly(w, s, d, n);
    ExampleIteration(w, s, d, n);
    Visit(w, s, d, n - 1, n);
    ArriveNext(w, s, d, n - 1, Run(w, Example(s, d), n));
    CounterIs(n - 1);
  }

  lemma ExampleFacts(w: World, s: int, d: int)
    requires Computes(w) && 0 <= s < 256
    ensures LoopFacts(w, Example(s, d), LOOP, ScevsOf(s, d))
  {
    var f, scevs := Example(s, d), ScevsOf(s, d);
    forall n: nat | AtHeader(w, f, 1, n)
      ensures Get(PhiEnv(w, f, Run(w, f, n)), 0) == Recurrence(0, 1, 2, Iteration(w, f, LOOP, n))
      ensures Get(PhiEnv(w, f, Run(w, f, n)), 1) == Recurrence(s, d, 8, Iteration(w, f, LOOP, n))
    {
      ExampleValues(w, s, d, n);
    }
    assert RecOf(scevs, COUNTER) == PRIM && RecOf(scevs, Variable(s)) == Derived(s, d);
  }

  lemma ThreeIterations(w: World, s: int, d: int)
    requires Computes(w) && 0 <= s < 256
    ensures RunsThrough(w, Example(s, d), LOOP, 3)
  {
    var f := Example(s, d);
    forall n: nat | AtHeader(w, f, 1, n)
      ensures Iteration(w, f, LOOP, n) < 3
    {
      ExampleValues(w, s, d, n);
    }
    forall k: nat | k < 3
      ensures Reached(w, f, LOOP, k)
    {
      ExampleHeaderOnly(w, s, d, k + 1);
      ExampleIteration(w, s, d, k + 1);
      assert Reaches(w, f, LOOP, k + 1, k);
    }
  }

  // ----- The run after the pass -----

  /** The new header's body, with the counter at k. */
  lemma NewBodyRuns(w: World, s: int, d: int, e: Env, k: nat) returns (e': Env)
    requires Computes(w) && Get(e, 0) == Norm(k, 2)
    ensures ExecBody(w, NewHeader(s, d).body, e, w.mem0) == Ran(e', w.mem0)
    ensures Get(e', 0) == Get(e, 0) && Get(e', 2) == Norm(Get(e, 0) + 1, 2)
    ensures Get(e', 3) == Norm(ClosedForm(s, d, 2, 8, k) + d, 8)
  {
    var new' := NewInstrs(PRIM, Derived(s, d), 4);
    NewRun(w, PRIM, Derived(s, d), 4, e, w.mem0, k);
    var e2 := ExecBody(w, new', e, w.mem0).env;
    ExecBodyAppend(w, new', [COUNT, Advance(6, d)], e, w.mem0);
    BodyRuns(w, 6, d, e2, Get(e, 0), ClosedForm(s, d, 2, 8, k));
    e' := e2[2 := Norm(Get(e, 0) + 1, 2)][3 := Norm(ClosedForm(s, d, 2, 8, k) + d, 8)];
  }

  lemma NewHeaderRuns(w: World, s: int, d: int, prev: Label, e: Env, k: nat)
    requires Computes(w) && (prev == 0 || prev == 1) && k <= 2 && k == if prev == 0 then 0 else Get(e, 2)
    ensures var c := StepBlock(w, NewHeader(s, d), prev, 1, e, w.mem0);
      && c.At? && c.prev == 1 && c.cur == (if k == 2 then 2 else 1) && c.mem == w.mem0
      && Get(c.env, 2) == k + 1 && Get(c.env, 3) == Norm(ClosedForm(s, d, 2, 8, k) + d, 8)
  {
    CounterEntry(w, prev, e);
    var e1 := e[0 := k as int];
    LastPhi(w, COUNTER, prev, e, e);
    SmallNorms(0, d);
    var e3 := NewBodyRuns(w, s, d, e1, k);
    LeaveHeader(w, e3);
  }

  /** What the new header leaves behind, k iterations later. */
  ghost predicate NewArrives(w: World, k: nat, c: Config) {
    c.At? && c.cur == 1 && c.mem == w.mem0 && c.prev == (if k == 0 then 0 else 1) && (k > 0 ==> Get(c.env, 2) == k)
  }

  lemma {:induction false} NewVisit(w: World, s: int, d: int, k: nat, n: nat)
    requires Computes(w) && k <= 2 && n == k + 1
    ensures NewArrives(w, k, Run(w, Processed(s, d), n))
  {
    var g := Processed(s, d);
    if k == 0 {
      EntryRuns(w, g);
    } else {
      NewVisit(w, s, d, k - 1, n - 1);
      var c := Run(w, g, n - 1);
      NewHeaderRuns(w, s, d, c.prev, c.env, k - 1);
      RunNext(w, g, n - 1, n);
    }
  }

  lemma ProcessedRuns(w: World, s: int, d: int, n: nat)
    requires Computes(w) && n == 4
    ensures Run(w, Processed(s, d), n + 1) == Done([Norm(ClosedForm(s, d, 2, 8, 2) + d, 8)], w.mem0)
  {
    var g := Processed(s, d);
    NewVisit(w, s, d, 2, n - 1);
    var c := Run(w, g, n - 1);
    NewHeaderRuns(w, s, d, c.prev, c.env, 2);
    RunNext(w, g, n - 1, n);
    RunNext(w, g, n, n + 1);
    ExitRuns(w, g, Run(w, g, n).env);
  }

  /** Adding d is one to one modulo 256. */
  lemma AddedDiffers(x: int, y: int, d: int)
    requires 0 <= x < 256 && 0 <= y < 256 && Norm(x + d, 8) == Norm(y + d, 8)
    ensures x == y
  {
    Powers();
    SameResidueIff(x + d, y + d, 256);
    SameResidueIff(x, y, 256);
  }

  lemma ExampleFits(s: int, d: int)
    ensures Fits(d, 2, 8, 3) <==> (4 * d) % 256 == 0
    ensures Fits(d, 2, 8, 3) <==> ClosedForm(s, d, 2, 8, 2) == Recurrence(s, d, 8, 2)
  {
    Powers();
    NarrowAtHalf(s, d, 2, 8);
  }

  lemma ReturnsDiffer(w: World, s: int, d: int, n: nat)
    requires Computes(w) && 0 <= s < 256 && !Fits(d, 2, 8, 3) && n == 4
    ensures Look(Run(w, Example(s, d), n + 1)) != Look(Run(w, Processed(s, d), n + 1))
  {
    Leaves(w, s, d, n);
    ProcessedRuns(w, s, d, n);
    ExampleFits(s, d);
    Advances(s, d, 2);
    Powers();
    if Norm(ClosedForm(s, d, 2, 8, 2) + d, 8) == Recurrence(s, d, 8, 3) {
      AddedDiffers(ClosedForm(s, d, 2, 8, 2), Recurrence(s, d, 8, 2), d);
    }
  }

  lemma ExampleLoopFits(w: World, s: int, d: int)
    requires Computes(w) && 0 <= s < 256 && Fits(d, 2, 8, 3)
    ensures LoopFits(w, Example(s, d), LOOP, ScevsOf(s, d), 3)
  {
    Choices(s, d);
    ThreeIterations(w, s, d);
  }

  /** A well-formed function with a loop of three iterations, two bits for the primary and eight for
      the variable, about which all that the pass is told is true.  It means the same after the pass
      exactly when the variable fits the primary: when 4 * d is a multiple of 256. */
  lemma ExampleKeptIffFits(w: World, s: int, d: int)
    requires Computes(w) && 0 <= s < 256
    ensures WellFormed(Example(s, d)) && RegsBelow(Example(s, d), 4)
    ensures LoopFacts(w, Example(s, d), LOOP, ScevsOf(s, d)) && RunsThrough(w, Example(s, d), LOOP, 3)
    ensures Fits(d, 2, 8, 3) <==> (4 * d) % 256 == 0
    ensures ProcessLoop(Example(s, d), LOOP, ScevsOf(s, d), 4) == (Processed(s, d), 7)
    ensures Lockstep(w, Example(s, d), Processed(s, d)) <==> Fits(d, 2, 8, 3)
  {
    ExampleWellFormed(s, d);
    ExampleBelow(s, d);
    ExampleFacts(w, s, d);
    ThreeIterations(w, s, d);
    ExampleFits(s, d);
    ProcessedIs(s, d);
    if Fits(d, 2, 8, 3) {
      ExampleLoopFits(w, s, d);
      FittingLoop(w, Example(s, d), LOOP, ScevsOf(s, d), 3);
      LoopPreserves(w, Example(s, d), LOOP, ScevsOf(s, d), 4);
    } else {
      ReturnsDiffer(w, s, d, 4);
    }
  }

  // ----- There is such a machine -----

  /** Integer arithmetic with registers of any width; everything else gives 0. */
  function Compute(code: Opcode, width: nat, xs: seq<int>): int {
    match code
    case Add => if |xs| == 2 then Norm(xs[0] + xs[1], width) else 0
    case Mul => if |xs| == 2 then Norm(xs[0] * xs[1], width) else 0
    case Trunc => if |xs| == 1 then Norm(xs[0], width) else 0
    case SExt(p) => if |xs| == 1 && 0 < p && xs[0] >= 0 then SignExtend(xs[0], p, width) else 0
    case _ => 0
  }

  function Machine(): World {
    World((op: Op, xs: seq<int>, m: Mem) => Ok(if op.ty.IntTy? then Compute(op.code, op.ty.width, xs) else 0, m),
          a => 0, g => 0, [])
  }

  ghost predicate Evaluates(w: World) {
    forall code, k, xs, m :: w.eval(Arith(code, k), xs, m) == Ok(Compute(code, k, xs), m)
  }

  lemma EvaluatingComputes(w: World)
    requires Evaluates(w)
    ensures Computes(w)
  {
  }

  lemma MachineComputes()
    ensures Computes(Machine())
  {
    EvaluatingComputes(Machine());
  }

  lemma StepOneReturns(s: int)
    requires 0 <= s < 256
    ensures Recurrence(s, 1, 8, 3) == (s + 3) % 256
    ensures Norm(ClosedForm(s, 1, 2, 8, 2) + 1, 8) == (s + 255) % 256
  {
    Powers();
    ClosedFormIs(s, 1, 2, 8, 2);
    assert SignExtend(Norm(2, 2), 2, 8) == 254;
    ModAddRight(1, s + 254, 256);
  }

  lemma StepOneEnds(w: World, s: int, n: nat)
    requires Computes(w) && 0 <= s < 256 && n == 4
    ensures Ends(w, Example(s, 1), Finished([(s + 3) % 256], w.mem0))
    ensures Ends(w, Processed(s, 1), Finished([(s + 255) % 256], w.mem0))
  {
    StepOneReturns(s);
    Leaves(w, s, 1, n);
    ProcessedRuns(w, s, 1, n);
    assert !Run(w, Example(s, 1), n + 1).At? && !Run(w, Processed(s, 1), n + 1).At?;
  }

  /** A run that the pass changes: with step 1 the function returns start + 3 before and start - 1
      after, modulo 256. */
  lemma NarrowPrimaryChangesMeaning(s: int)
    requires 0 <= s < 256
    ensures Computes(Machine())
    ensures Ends(Machine(), Example(s, 1), Finished([(s + 3) % 256], []))
    ensures Ends(Machine(), Processed(s, 1), Finished([(s + 255) % 256], []))
  {
    MachineComputes();
    StepOneEnds(Machine(), s, 4);
  }
}
