/** Where SimpleLICM stops being sound: a hoisted instruction whose operand stays in the loop. */
module LicmBoundary {
  import opened IR
  import opened Semantics
  import opened Paths
  import opened StrictSsa
  import opened LicmSpec
  import opened LicmSound
  import opened LicmPaths
  import opened LicmRuns
  import opened LicmOrder

  /** A division, say: it may trap. */
  const DIVIDE: Op := Op(Other(0), IntTy(32), false, false, false, false)
  const PLUS: Op := Op(Add, IntTy(32), false, false, true, false)

  function Header(c: int): Block {
    Block([], [Instr(0, DIVIDE, [Const(c), Arg(0)]), Instr(1, PLUS, [Ref(0), Const(1)])], Term(Cond, [Arg(1)], [1, 2]))
  }

  /** Block 0 is the preheader of the loop {1}, which computes c / arg0 + 1; block 2 returns it. */
  function Example(c: int): Func {
    Func([0, 1, 2],
         map[0 := Block([], [], Term(Uncond, [], [1])),
             1 := Header(c),
             2 := Block([], [], Term(Return, [Ref(1)], []))])
  }

  const LOOP: Loop := Loop(1, [1])
  const TREE: DomTree := {(0, 0), (0, 1), (0, 2), (1, 1), (1, 2), (2, 2)}

  lemma ExampleEdges(c: int, a: Label, b: Label)
    ensures Example(c).Edge(a, b) <==> (a == 0 && b == 1) || (a == 1 && (b == 1 || b == 2))
  {
  }

  lemma ExampleRefs(c: int, s: Site, r: Reg)
    requires UsedAt(Example(c), s, r)
    ensures (r == 0 && s.l == 1 && s.i == 1) || (r == 1 && s.l == 2 && s.i == 0)
  {
  }

  lemma ExampleRefsDefined(c: int)
    ensures RefsDefined(Example(c))
  {
    assert DefinedAt(Example(c), 1, 0, 0) && DefinedAt(Example(c), 1, 1, 1);
    forall s, r | UsedAt(Example(c), s, r)
      ensures exists l, i :: DefinedAt(Example(c), l, i, r)
    {
      ExampleRefs(c, s, r);
    }
  }

  lemma ExampleTerms(c: int)
    ensures Shape(Example(c)) && forall l :: l in Example(c).blocks ==> TermOk(Example(c), Example(c).blocks[l].term)
  {
  }

  lemma ExampleDefs(c: int)
    ensures UniqueDefs(Example(c))
  {
  }

  lemma ExampleCovers(c: int)
    ensures forall l :: l in Example(c).blocks ==> PhisCover(Example(c), l)
  {
  }

  lemma ExampleWellFormed(c: int)
    ensures WellFormed(Example(c))
  {
    ExampleRefsDefined(c);
    ExampleTerms(c);
    ExampleDefs(c);
    ExampleCovers(c);
  }

  // ----- Dominance in the example -----

  lemma PathEnds(c: int, q: seq<Label>)
    requires IsPath(Example(c), q)
    ensures 0 in q && q[|q| - 1] <= 2
    ensures q[|q| - 1] == 2 ==> |q| >= 2 && q[|q| - 2] == 1
  {
    if |q| > 1 {
      ExampleEdges(c, q[|q| - 2], q[|q| - 1]);
    }
  }

  lemma ShortPaths(c: int)
    ensures PathTo(Example(c), [0], 0) && PathTo(Example(c), [0, 1], 1) && PathTo(Example(c), [0, 1, 2], 2)
  {
    ExampleEdges(c, 0, 1);
    ExampleEdges(c, 1, 2);
  }

  lemma ExampleDominates(c: int, a: Label, b: Label)
    requires (a, b) in TREE
    ensures Dominates(Example(c), a, b)
  {
    forall q | PathTo(Example(c), q, b)
      ensures a in q
    {
      PathEnds(c, q);
    }
  }

  lemma ExampleTree(c: int)
    ensures DomTreeOk(Example(c), TREE)
  {
    var f := Example(c);
    ShortPaths(c);
    assert !Dominates(f, 1, 0) by { assert 1 !in [0]; }
    assert !Dominates(f, 2, 0) by { assert 2 !in [0]; }
    assert !Dominates(f, 2, 1) by { assert 2 !in [0, 1]; }
    forall a, b | a in f.blocks && b in f.blocks
      ensures (a, b) in TREE <==> Dominates(f, a, b)
    {
      if (a, b) in TREE {
        ExampleDominates(c, a, b);
      }
    }
  }

  lemma ExampleSsa(c: int)
    ensures Ssa(Example(c))
  {
    var f := Example(c);
    var one: nat := 1;
    assert f.blocks[1].body[0].dst == 0;
    assert MadeBefore(f.blocks[1].body, 1, 0);
    assert DefinedAt(f, 1, one, 1);
    assert DefinesValue(f, 1, 1);
    forall q | PathTo(f, q, 2)
      ensures exists i :: 0 <= i < |q| - 1 && DefinesValue(f, q[i], 1)
    {
      PathEnds(c, q);
      assert DefinesValue(f, q[|q| - 2], 1);
    }
    assert Available(f, Ref(1), 2);
    assert BodySsa(f, 0) && BodySsa(f, 1) && BodySsa(f, 2);
  }

  lemma ExampleLoop(c: int)
    ensures LoopOk(Example(c), LOOP, 0) && DominatorsFirst(Example(c), [1])
  {
    ShortPaths(c);
    forall a, b | Example(c).Edge(a, b) && b == 1 && a != 1
      ensures a == 0
    {
      ExampleEdges(c, a, b);
    }
  }

  // ----- What the pass does to it -----

  lemma ExampleBody(c: int, x: Instr)
    ensures InBody(Example(c), [1], x) <==> x == Header(c).body[0] || x == Header(c).body[1]
  {
    assert Example(c).blocks[1] == Header(c);
  }

  lemma ExampleRegs(c: int)
    ensures LoopRegs(Example(c), [1]) == {0, 1}
  {
    var f := Example(c);
    assert DstAt(f.blocks[1], 0) == 0 && DstAt(f.blocks[1], 1) == 1;
  }

  lemma ExampleInvariants(c: int)
    ensures InvariantSet(Example(c), [1], {0, 1})
  {
    var f, h := Example(c), Header(c).body;
    ExampleRegs(c);
    ExampleBody(c, h[0]);
    ExampleBody(c, h[1]);
    forall x | InBody(f, [1], x)
      ensures x.dst in {0, 1}
    {
      ExampleBody(c, x);
    }
    forall t | Closed(f, [1], t)
      ensures {0, 1} <= t
    {
      assert Invariant({0, 1}, t, h[0]);
      assert Invariant({0, 1}, t, h[1]);
    }
  }

  lemma ExampleHoisted(c: int)
    ensures Hoisted(Example(c), [1], TREE, {0, 1}) == {1}
  {
    var f := Example(c);
    assert f.blocks[1].body[1].dst == 1 && f.blocks[1].body[0].dst == 0;
    assert ExitBlocks(f, [1]) <= {2};
    assert DominatesExits(f, [1], TREE, 1);
  }

  lemma TwoInstrs(x: Instr, y: Instr, h: set<Reg>)
    requires x.dst !in h && y.dst in h
    ensures Taken([x, y], h) == [y] && Left([x, y], h) == [x]
  {
    var s, t := [x, y], [y];
    assert s[1..] == t && t[1..] == [];
    assert Taken(t, h) == [y] + Taken(t[1..], h) && Left(t, h) == [] + Left(t[1..], h);
    assert Taken(s, h) == [] + Taken(s[1..], h) && Left(s, h) == [x] + Left(s[1..], h);
  }

  lemma ExampleAfter(c: int)
    ensures var g := Hoist(Example(c), [1], 0, {1});
      && g.order == [0, 1, 2] && g.blocks.Keys == {0, 1, 2} && g.blocks[2] == Example(c).blocks[2]
      && g.blocks[0] == Block([], [Header(c).body[1]], Term(Uncond, [], [1]))
      && g.blocks[1] == Block([], [Header(c).body[0]], Header(c).term)
  {
    var f, b := Example(c), Header(c).body;
    var ls: seq<Label> := [1];
    assert ls[..0] == [];
    TwoInstrs(b[0], b[1], {1});
    assert b == [b[0], b[1]];
    assert Picked(f, ls, {1}) == Picked(f, ls[..0], {1}) + Taken(f.blocks[1].body, {1});
    var g := Hoist(f, ls, 0, {1});
    assert f.blocks[1].body == b && Left(b, {1}) == [b[0]];
    assert g.blocks[0] == HoistBlock(f, ls, 0, {1}, 0) && g.blocks[1] == HoistBlock(f, ls, 0, {1}, 1);
    assert f.blocks[0].body + Picked(f, ls, {1}) == [b[1]];
  }

  // ----- The two runs -----

  /** Block 0 of either function, with body e0, jumps to block 1. */
  lemma LastBlock(w: World, f: Func, e: Env, v: int)
    requires 2 in f.blocks && f.blocks[2] == Block([], [], Term(Return, [Ref(1)], [])) && Get(e, 1) == v
    ensures Step(w, f, At(1, 2, e, w.mem0)) == Done([v], w.mem0)
  {
    assert Vals(w, [Ref(1)], e) == [v];
  }

  /** Division yields d, and addition adds. */
  ghost predicate Computes(w: World, c: int, d: int) {
    && w.arg(1) == 0
    && w.eval(DIVIDE, [c, w.arg(0)], w.mem0) == Ok(d, w.mem0)
    && (forall x, y :: w.eval(PLUS, [x, y], w.mem0) == Ok(x + y, w.mem0))
  }

  lemma RunsDivide(w: World, c: int, d: int, e: Env)
    requires Computes(w, c, d)
    ensures ExecInstr(w, Header(c).body[0], e, w.mem0) == Ran(e[0 := d], w.mem0)
  {
    assert Vals(w, [Const(c), Arg(0)], e) == [c, w.arg(0)];
  }

  lemma RunsPlus(w: World, c: int, d: int, e: Env)
    requires Computes(w, c, d)
    ensures ExecInstr(w, Header(c).body[1], e, w.mem0) == Ran(e[1 := Get(e, 0) + 1], w.mem0)
  {
    assert Vals(w, [Ref(0), Const(1)], e) == [Get(e, 0), 1];
  }

  lemma OneRuns(w: World, x: Instr, e: Env, m: Mem)
    ensures ExecBody(w, [x], e, m) == ExecInstr(w, x, e, m)
  {
    assert [x][1..] == [];
  }

  lemma TwoRun(w: World, x: Instr, y: Instr, e: Env, m: Mem)
    requires ExecInstr(w, x, e, m).Ran?
    ensures ExecBody(w, [x, y], e, m) == ExecInstr(w, y, ExecInstr(w, x, e, m).env, ExecInstr(w, x, e, m).mem)
  {
    assert [x, y][1..] == [y];
    OneRuns(w, y, ExecInstr(w, x, e, m).env, ExecInstr(w, x, e, m).mem);
  }

  lemma LeavesHeader(w: World, c: int, e: Env)
    requires w.arg(1) == 0
    ensures Leave(w, Header(c).term, 1, e, w.mem0) == At(1, 2, e, w.mem0)
  {
    assert Vals(w, [Arg(1)], e) == [0];
  }

  lemma ExampleReturns(w: World, c: int, d: int)
    requires Computes(w, c, d)
    ensures Look(Run(w, Example(c), 3)) == Finished([d + 1], w.mem0)
  {
    var f, h := Example(c), Header(c).body;
    RunNext(w, f, 0, 1);
    assert Run(w, f, 1) == At(0, 1, map[], w.mem0);
    RunsDivide(w, c, d, map[]);
    RunsPlus(w, c, d, map[0 := d]);
    TwoRun(w, h[0], h[1], map[], w.mem0);
    LeavesHeader(w, c, map[0 := d, 1 := d + 1]);
    assert Step(w, f, Run(w, f, 1)) == At(1, 2, map[0 := d][1 := d + 1], w.mem0);
    LastBlock(w, f, map[0 := d][1 := d + 1], d + 1);
    RunNext(w, f, 1, 2);
    RunNext(w, f, 2, 3);
  }

  lemma HoistedReturns(w: World, c: int, d: int, g: Func)
    requires Computes(w, c, d) && g == Hoist(Example(c), [1], 0, {1})
    ensures g.order != [] && Look(Run(w, g, 3)) == Finished([1], w.mem0)
  {
    var h := Header(c).body;
    ExampleAfter(c);
    RunsPlus(w, c, d, map[]);
    OneRuns(w, h[1], map[], w.mem0);
    RunNext(w, g, 0, 1);
    assert Run(w, g, 1) == At(0, 1, map[1 := 1], w.mem0);
    RunsDivide(w, c, d, map[1 := 1]);
    OneRuns(w, h[0], map[1 := 1], w.mem0);
    LeavesHeader(w, c, map[1 := 1][0 := d]);
    assert Step(w, g, Run(w, g, 1)) == At(1, 2, map[1 := 1][0 := d], w.mem0);
    LastBlock(w, g, map[1 := 1][0 := d], 1);
    RunNext(w, g, 1, 2);
    RunNext(w, g, 2, 3);
  }

  /** Everything SimpleLICM is given is in order, yet it moves an addition before the division it
      reads, and the function returns something else. */
  lemma LeavingAnOperandChangesMeaning(w: World, c: int, d: int)
    requires Computes(w, c, d) && d != 0
    ensures LicmBase(Example(c), LOOP, 0, TREE, {0, 1})
    ensures var g := Hoist(Example(c), [1], 0, Hoisted(Example(c), [1], TREE, {0, 1})); !Lockstep(w, Example(c), g)
  {
    ExampleWellFormed(c);
    ExampleSsa(c);
    ExampleLoop(c);
    ExampleTree(c);
    ExampleInvariants(c);
    ExampleHoisted(c);
    ExampleReturns(w, c, d);
    HoistedReturns(w, c, d, Hoist(Example(c), [1], 0, {1}));
  }
}
