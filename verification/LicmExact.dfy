/** What SimpleLICM moves, in terms of the function alone: no fixpoint and no dominator tree. */
module LicmExact {
  import opened IR
  import opened Semantics
  import opened Paths
  import opened StrictSsa
  import opened LicmSpec
  import opened LicmSound
  import opened LicmRuns
  import opened LicmOrder

  // ----- Chains of computations -----

  /** Position i of a loop block, PHIs included, writes r. */
  ghost predicate WritesAt(f: Func, ls: seq<Label>, l: Label, i: int, r: Reg) {
    l in ls && l in f.blocks && 0 <= i < Count(f.blocks[l]) && DstAt(f.blocks[l], i) == r
  }

  ghost predicate WrittenInLoop(f: Func, ls: seq<Label>, r: Reg) { exists l, i :: WritesAt(f, ls, l, i, r) }

  ghost predicate InLoopBody(f: Func, ls: seq<Label>, x: Instr) { exists l :: l in ls && l in f.blocks && x in f.blocks[l].body }

  ghost predicate MadeIn(xs: seq<Instr>, r: Reg) { exists j :: 0 <= j < |xs| && xs[j].dst == r }

  /** x is an instruction of the loop that touches no memory and calls nothing, and every value that it
      reads is made outside the loop or by one of xs. */
  ghost predicate Follows(f: Func, ls: seq<Label>, xs: seq<Instr>, x: Instr) {
    && InLoopBody(f, ls, x)
    && !x.op.mem && !x.op.call && !x.op.dbg
    && forall k :: 0 <= k < |x.args| && x.args[k].Ref? ==> !WrittenInLoop(f, ls, x.args[k].r) || MadeIn(xs, x.args[k].r)
  }

  ghost predicate Chain(f: Func, ls: seq<Label>, xs: seq<Instr>) {
    xs == [] || (Chain(f, ls, xs[..|xs| - 1]) && Follows(f, ls, xs[..|xs| - 1], xs[|xs| - 1]))
  }

  /** r can be computed from what comes from outside the loop. */
  ghost predicate Computable(f: Func, ls: seq<Label>, r: Reg) { exists xs :: Chain(f, ls, xs) && MadeIn(xs, r) }

  lemma MadeInMore(xs: seq<Instr>, ys: seq<Instr>, r: Reg)
    ensures MadeIn(xs + ys, r) <==> MadeIn(xs, r) || MadeIn(ys, r)
  {
    var s := xs + ys;
    if j :| 0 <= j < |xs| && xs[j].dst == r {
      assert s[j].dst == r;
    }
    if j :| 0 <= j < |ys| && ys[j].dst == r {
      assert s[|xs| + j].dst == r;
    }
  }

  lemma FollowsMore(f: Func, ls: seq<Label>, xs: seq<Instr>, ys: seq<Instr>, x: Instr)
    requires Follows(f, ls, ys, x)
    ensures Follows(f, ls, xs + ys, x)
  {
    forall k | 0 <= k < |x.args| && x.args[k].Ref? && WrittenInLoop(f, ls, x.args[k].r)
      ensures MadeIn(xs + ys, x.args[k].r)
    {
      MadeInMore(xs, ys, x.args[k].r);
    }
  }

  lemma {:induction false} ChainAppend(f: Func, ls: seq<Label>, xs: seq<Instr>, ys: seq<Instr>)
    requires Chain(f, ls, xs) && Chain(f, ls, ys)
    ensures Chain(f, ls, xs + ys)
    decreases |ys|
  {
    if ys == [] {
      assert xs + ys == xs;
    } else {
      var zs, y := ys[..|ys| - 1], ys[|ys| - 1];
      ChainAppend(f, ls, xs, zs);
      FollowsMore(f, ls, xs, zs, y);
      var s := xs + ys;
      assert s[..|s| - 1] == xs + zs && s[|s| - 1] == y;
    }
  }

  lemma ChainMore(f: Func, ls: seq<Label>, xs: seq<Instr>, x: Instr)
    requires Chain(f, ls, xs) && Follows(f, ls, xs, x)
    ensures Chain(f, ls, xs + [x]) && MadeIn(xs + [x], x.dst)
  {
    var s := xs + [x];
    assert s[..|s| - 1] == xs && s[|s| - 1] == x;
  }

  // ----- The least set of invariants is what chains compute -----

  lemma LoopRegsAre(f: Func, ls: seq<Label>, r: Reg)
    requires forall l :: l in ls ==> l in f.blocks
    ensures r in LoopRegs(f, ls) <==> WrittenInLoop(f, ls, r)
  {
    if l, i :| WritesAt(f, ls, l, i, r) {
      assert DstAt(f.blocks[l], i) in LoopRegs(f, ls);
    }
    if r in LoopRegs(f, ls) {
      var l, i :| l in ls && 0 <= i < Count(f.blocks[l]) && DstAt(f.blocks[l], i) == r;
      assert WritesAt(f, ls, l, i, r);
    }
  }

  lemma FollowsIsInvariant(f: Func, ls: seq<Label>, s: set<Reg>, xs: seq<Instr>, x: Instr)
    requires (forall l :: l in ls ==> l in f.blocks) && Follows(f, ls, xs, x) && forall r :: MadeIn(xs, r) ==> r in s
    ensures InBody(f, ls, x) && Invariant(LoopRegs(f, ls), s, x)
  {
    forall k | 0 <= k < |x.args|
      ensures OperandInvariant(LoopRegs(f, ls), s, x.args[k])
    {
      if x.args[k].Ref? {
        LoopRegsAre(f, ls, x.args[k].r);
      }
    }
  }

  lemma {:induction false} ChainIsInvariant(f: Func, ls: seq<Label>, s: set<Reg>, xs: seq<Instr>)
    requires (forall l :: l in ls ==> l in f.blocks) && Closed(f, ls, s) && Chain(f, ls, xs)
    ensures forall r :: MadeIn(xs, r) ==> r in s
    decreases |xs|
  {
    if xs != [] {
      var ys, x := xs[..|xs| - 1], xs[|xs| - 1];
      ChainIsInvariant(f, ls, s, ys);
      FollowsIsInvariant(f, ls, s, ys, x);
      forall r | MadeIn(xs, r)
        ensures r in s
      {
        assert xs == ys + [x];
        MadeInMore(ys, [x], r);
      }
    }
  }

  /** A chain that makes what the first n operands need. */
  lemma {:induction false} OperandChain(f: Func, ls: seq<Label>, x: Instr, n: nat) returns (xs: seq<Instr>)
    requires n <= |x.args|
    requires forall k :: 0 <= k < |x.args| && x.args[k].Ref? && WrittenInLoop(f, ls, x.args[k].r) ==> Computable(f, ls, x.args[k].r)
    ensures Chain(f, ls, xs)
    ensures forall k :: 0 <= k < n && x.args[k].Ref? && WrittenInLoop(f, ls, x.args[k].r) ==> MadeIn(xs, x.args[k].r)
  {
    xs := [];
    if n > 0 {
      xs := OperandChain(f, ls, x, n - 1);
      var a := x.args[n - 1];
      if a.Ref? && WrittenInLoop(f, ls, a.r) {
        var ys :| Chain(f, ls, ys) && MadeIn(ys, a.r);
        ChainAppend(f, ls, xs, ys);
        forall r
          ensures MadeIn(xs + ys, r) <==> MadeIn(xs, r) || MadeIn(ys, r)
        {
          MadeInMore(xs, ys, r);
        }
        xs := xs + ys;
      }
    }
  }

  lemma ComputableIsClosed(f: Func, ls: seq<Label>, s: set<Reg>, t: set<Reg>)
    requires (forall l :: l in ls ==> l in f.blocks) && Closed(f, ls, s)
    requires forall r :: r in t <==> r in s && Computable(f, ls, r)
    ensures Closed(f, ls, t)
  {
    forall x | InBody(f, ls, x) && Invariant(LoopRegs(f, ls), t, x)
      ensures x.dst in t
    {
      forall k | 0 <= k < |x.args| && x.args[k].Ref? && WrittenInLoop(f, ls, x.args[k].r)
        ensures x.args[k].r in t
      {
        LoopRegsAre(f, ls, x.args[k].r);
        assert OperandInvariant(LoopRegs(f, ls), t, x.args[k]);
      }
      assert Invariant(LoopRegs(f, ls), s, x) by {
        assert forall k :: 0 <= k < |x.args| && OperandInvariant(LoopRegs(f, ls), t, x.args[k]) ==> OperandInvariant(LoopRegs(f, ls), s, x.args[k]);
      }
      var xs := OperandChain(f, ls, x, |x.args|);
      assert Follows(f, ls, xs, x);
      ChainMore(f, ls, xs, x);
    }
  }

  /** The fixpoint finds exactly the registers that chains of the loop's computations make. */
  lemma InvariantIffComputable(f: Func, ls: seq<Label>, s: set<Reg>, r: Reg)
    requires (forall l :: l in ls ==> l in f.blocks) && InvariantSet(f, ls, s)
    ensures r in s <==> Computable(f, ls, r)
  {
    if Computable(f, ls, r) {
      var xs :| Chain(f, ls, xs) && MadeIn(xs, r);
      ChainIsInvariant(f, ls, s, xs);
    }
    var t := set q | q in s && Computable(f, ls, q);
    ComputableIsClosed(f, ls, s, t);
  }

  // ----- What moves -----

  /** l dominates every block that an edge out of the loop leads to. */
  ghost predicate DominatesEveryExit(f: Func, ls: seq<Label>, l: Label)
    requires f.order != []
  {
    forall b, e :: b in ls && f.Edge(b, e) && e !in ls ==> Dominates(f, l, e)
  }

  /** An instruction x of the loop block l is to move to the preheader. */
  ghost predicate Moves(f: Func, ls: seq<Label>, l: Label, x: Instr)
    requires f.order != []
  {
    Computable(f, ls, x.dst) && x.op.safe && DominatesEveryExit(f, ls, l)
  }

  lemma ExitsAre(f: Func, ls: seq<Label>, dt: DomTree, l: Label)
    requires WellFormed(f) && (forall l :: l in ls ==> l in f.blocks) && DomTreeOk(f, dt) && l in ls
    ensures DominatesExits(f, ls, dt, l) <==> DominatesEveryExit(f, ls, l)
  {
    if DominatesExits(f, ls, dt, l) {
      forall b, e | b in ls && f.Edge(b, e) && e !in ls
        ensures Dominates(f, l, e)
      {
        assert e in ExitBlocks(f, ls) && TermOk(f, f.blocks[b].term);
      }
    }
    if DominatesEveryExit(f, ls, l) {
      forall e | e in ExitBlocks(f, ls)
        ensures (l, e) in dt
      {
        var b :| b in ls && f.Edge(b, e) && e !in ls;
        assert TermOk(f, f.blocks[b].term);
      }
    }
  }

  lemma HoistedHere(f: Func, ls: seq<Label>, dt: DomTree, s: set<Reg>, l: Label, i: nat)
    requires UniqueDefs(f) && (forall l :: l in ls ==> l in f.blocks) && l in ls && i < |f.blocks[l].body|
    ensures f.blocks[l].body[i].dst in Hoisted(f, ls, dt, s) <==>
      f.blocks[l].body[i].dst in s && f.blocks[l].body[i].op.safe && DominatesExits(f, ls, dt, l)
  {
    var r := f.blocks[l].body[i].dst;
    if r in Hoisted(f, ls, dt, s) {
      var m, j := HoistedAt(f, ls, dt, s, r);
      OneDef(f, l, |f.blocks[l].phis| + i, m, |f.blocks[m].phis| + j);
    }
  }

  /** An instruction is hoisted exactly if it can be computed from outside the loop, is safe, and
      stands in a block that dominates every exit. */
  lemma HoistedIffMoves(f: Func, ls: seq<Label>, dt: DomTree, s: set<Reg>, l: Label, x: Instr)
    requires WellFormed(f) && (forall l :: l in ls ==> l in f.blocks) && DomTreeOk(f, dt) && InvariantSet(f, ls, s)
    requires l in ls && x in f.blocks[l].body
    ensures x.dst in Hoisted(f, ls, dt, s) <==> Moves(f, ls, l, x)
  {
    var i :| 0 <= i < |f.blocks[l].body| && f.blocks[l].body[i] == x;
    HoistedHere(f, ls, dt, s, l, i);
    InvariantIffComputable(f, ls, s, x.dst);
    ExitsAre(f, ls, dt, l);
  }

  lemma {:induction false} LeftIs(body: seq<Instr>, h: set<Reg>, x: Instr)
    ensures x in Left(body, h) <==> x in body && x.dst !in h
  {
    if body != [] {
      LeftIs(body[1..], h, x);
      assert body == [body[0]] + body[1..];
    }
  }

  /** What moves is in the preheader and nowhere else, what does not has stayed; the other blocks and
      what the preheader did before are as they were. */
  ghost predicate Placed(f: Func, g: Func, ls: seq<Label>, p: Label)
    requires f.order != [] && p in f.blocks
  {
    && g.order == f.order && g.blocks.Keys == f.blocks.Keys
    && (forall l, x :: l in ls && l in f.blocks && x in f.blocks[l].body ==> PlacedAt(f, g, ls, p, l, x))
    && (forall l :: l in f.blocks && l !in ls && l != p ==> g.blocks[l] == f.blocks[l])
    && (forall l :: l in f.blocks ==> g.blocks[l].phis == f.blocks[l].phis && g.blocks[l].term == f.blocks[l].term)
    && f.blocks[p].body <= g.blocks[p].body
  }

  ghost predicate PlacedAt(f: Func, g: Func, ls: seq<Label>, p: Label, l: Label, x: Instr)
    requires f.order != [] && p in g.blocks && l in g.blocks
  {
    (x in g.blocks[p].body <==> Moves(f, ls, l, x)) && (x in g.blocks[l].body <==> !Moves(f, ls, l, x))
  }

  lemma NotInPreheader(f: Func, p: Label, l: Label, x: Instr)
    requires UniqueDefs(f) && p in f.blocks && l in f.blocks && p != l && x in f.blocks[l].body
    ensures x !in f.blocks[p].body
  {
    var i :| 0 <= i < |f.blocks[l].body| && f.blocks[l].body[i] == x;
    if j :| 0 <= j < |f.blocks[p].body| && f.blocks[p].body[j] == x {
      OneDef(f, l, |f.blocks[l].phis| + i, p, |f.blocks[p].phis| + j);
    }
  }

  lemma HoistPlacesOne(f: Func, ls: seq<Label>, p: Label, dt: DomTree, s: set<Reg>, l: Label, x: Instr)
    requires WellFormed(f) && (forall l :: l in ls ==> l in f.blocks) && DomTreeOk(f, dt) && InvariantSet(f, ls, s)
    requires p in f.blocks && p !in ls && l in ls && x in f.blocks[l].body
    ensures PlacedAt(f, Hoist(f, ls, p, Hoisted(f, ls, dt, s)), ls, p, l, x)
  {
    var h := Hoisted(f, ls, dt, s);
    HoistedIffMoves(f, ls, dt, s, l, x);
    PickedIs(f, ls, h, x);
    LeftIs(f.blocks[l].body, h, x);
    NotInPreheader(f, p, l, x);
  }

  /** The pass places every instruction where it should be. */
  lemma HoistPlaces(f: Func, ls: seq<Label>, p: Label, dt: DomTree, s: set<Reg>)
    requires WellFormed(f) && (forall l :: l in ls ==> l in f.blocks) && DomTreeOk(f, dt) && InvariantSet(f, ls, s)
    requires p in f.blocks && p !in ls
    ensures Placed(f, Hoist(f, ls, p, Hoisted(f, ls, dt, s)), ls, p)
  {
    forall l, x | l in ls && l in f.blocks && x in f.blocks[l].body
      ensures PlacedAt(f, Hoist(f, ls, p, Hoisted(f, ls, dt, s)), ls, p, l, x)
    {
      HoistPlacesOne(f, ls, p, dt, s, l, x);
    }
  }

  // ----- A while loop and a do-while loop -----

  function Bump(c: int): Instr { Instr(0, Op(Add, IntTy(32), false, false, true, false), [Arg(0), Const(c)]) }

  function Jump(l: Label): Term { Term(Uncond, [], [l]) }

  /** The addition stands in a block that does not dominate the exit. */
  function WhileLoop(c: int): Func {
    Func([0, 1, 2, 3],
         map[0 := Block([], [], Jump(1)),
             1 := Block([], [], Term(Cond, [Arg(1)], [2, 3])),
             2 := Block([], [Bump(c)], Jump(1)),
             3 := Block([], [], Term(Return, [], []))])
  }

  /** Here it stands in a block that does. */
  function DoWhileLoop(c: int): Func {
    Func([0, 1, 2],
         map[0 := Block([], [], Jump(1)),
             1 := Block([], [Bump(c)], Term(Cond, [Arg(1)], [1, 2])),
             2 := Block([], [], Term(Return, [], []))])
  }

  /** Without PHIs, with one register and no reads, a function with proper terminators is well formed. */
  lemma BareWellFormed(f: Func, x: Label)
    requires Shape(f) && (forall l :: l in f.blocks ==> f.blocks[l].phis == [] && TermOk(f, f.blocks[l].term))
    requires forall l, i :: Pos(f, l, i) ==> l == x && i == 0
    requires forall s, r :: !UsedAt(f, s, r)
    ensures WellFormed(f)
  {
    assert f.order[0] in f.order;
  }

  lemma WhileParts(c: int)
    ensures var f := WhileLoop(c); Shape(f) && forall l :: l in f.blocks ==> f.blocks[l].phis == [] && TermOk(f, f.blocks[l].term)
    ensures forall l, i :: Pos(WhileLoop(c), l, i) ==> l == 2 && i == 0
  {
    assert WhileLoop(c).blocks[0].term == Jump(1) && WhileLoop(c).blocks[2].term == Jump(1);
  }

  lemma WhileReadsNothing(c: int, s: Site, r: Reg)
    ensures !UsedAt(WhileLoop(c), s, r)
  {
  }

  lemma WhileWellFormed(c: int)
    ensures WellFormed(WhileLoop(c))
  {
    WhileParts(c);
    forall s, r
      ensures !UsedAt(WhileLoop(c), s, r)
    {
      WhileReadsNothing(c, s, r);
    }
    BareWellFormed(WhileLoop(c), 2);
  }

  lemma DoWhileParts(c: int)
    ensures var f := DoWhileLoop(c); Shape(f) && forall l :: l in f.blocks ==> f.blocks[l].phis == [] && TermOk(f, f.blocks[l].term)
    ensures forall l, i :: Pos(DoWhileLoop(c), l, i) ==> l == 1 && i == 0
  {
    assert DoWhileLoop(c).blocks[0].term == Jump(1);
  }

  lemma DoWhileReadsNothing(c: int, s: Site, r: Reg)
    ensures !UsedAt(DoWhileLoop(c), s, r)
  {
  }

  lemma DoWhileWellFormed(c: int)
    ensures WellFormed(DoWhileLoop(c))
  {
    DoWhileParts(c);
    forall s, r
      ensures !UsedAt(DoWhileLoop(c), s, r)
    {
      DoWhileReadsNothing(c, s, r);
    }
    BareWellFormed(DoWhileLoop(c), 1);
  }

  lemma BumpComputable(f: Func, ls: seq<Label>, c: int)
    requires InLoopBody(f, ls, Bump(c))
    ensures Computable(f, ls, 0)
  {
    var none: seq<Instr> := [];
    assert Chain(f, ls, none) && Follows(f, ls, none, Bump(c));
    ChainMore(f, ls, none, Bump(c));
  }

  lemma WhileSkipsBody(c: int, ls: seq<Label>)
    requires ls == [1, 2]
    ensures !DominatesEveryExit(WhileLoop(c), ls, 2)
  {
    assert PathTo(WhileLoop(c), [0, 1, 3], 3);
    assert 2 !in [0, 1, 3];
    assert ls[0] == 1 && WhileLoop(c).Edge(1, 3) && 3 !in ls;
  }

  lemma OneInstr(x: Instr, h: set<Reg>)
    requires x.dst !in h
    ensures Taken([x], h) == [] && Left([x], h) == [x]
  {
    assert [x][1..] == [];
  }

  lemma {:induction false} NothingPicked(f: Func, ls: seq<Label>, h: set<Reg>)
    requires forall l :: l in ls ==> l in f.blocks && Taken(f.blocks[l].body, h) == []
    ensures Picked(f, ls, h) == []
    decreases |ls|
  {
    if ls != [] {
      assert ls[|ls| - 1] in ls;
      NothingPicked(f, ls[..|ls| - 1], h);
    }
  }

  lemma NothingMoves(f: Func, ls: seq<Label>, p: Label, h: set<Reg>)
    requires forall l :: l in ls ==> l in f.blocks && Taken(f.blocks[l].body, h) == [] && Left(f.blocks[l].body, h) == f.blocks[l].body
    ensures Hoist(f, ls, p, h) == f
  {
    NothingPicked(f, ls, h);
    assert forall l :: l in f.blocks ==> HoistBlock(f, ls, p, h, l) == f.blocks[l];
    assert Hoist(f, ls, p, h).blocks == f.blocks;
  }

  lemma NothingHoisted(c: int, ls: seq<Label>, h: set<Reg>)
    requires ls == [1, 2] && 0 !in h
    ensures Hoist(WhileLoop(c), ls, 0, h) == WhileLoop(c)
  {
    OneInstr(Bump(c), h);
    assert forall l :: l in ls ==> l == 1 || l == 2;
    NothingMoves(WhileLoop(c), ls, 0, h);
  }

  /** In the while loop the addition is invariant and safe, but stays. */
  lemma WhileStays(c: int, ls: seq<Label>, dt: DomTree, s: set<Reg>)
    requires ls == [1, 2] && DomTreeOk(WhileLoop(c), dt) && InvariantSet(WhileLoop(c), ls, s)
    ensures 0 in s && Hoist(WhileLoop(c), ls, 0, Hoisted(WhileLoop(c), ls, dt, s)) == WhileLoop(c)
  {
    var f := WhileLoop(c);
    WhileWellFormed(c);
    assert ls[1] == 2 && f.blocks[2].body[0] == Bump(c);
    BumpComputable(f, ls, c);
    InvariantIffComputable(f, ls, s, 0);
    WhileSkipsBody(c, ls);
    HoistedIffMoves(f, ls, dt, s, 2, Bump(c));
    NothingHoisted(c, ls, Hoisted(f, ls, dt, s));
  }

  lemma DoWhileThroughBody(c: int, ls: seq<Label>)
    requires ls == [1]
    ensures DominatesEveryExit(DoWhileLoop(c), ls, 1)
  {
    var f := DoWhileLoop(c);
    forall b, e | b in ls && f.Edge(b, e) && e !in ls
      ensures Dominates(f, 1, e)
    {
      forall q | PathTo(f, q, e)
        ensures 1 in q
      {
        assert e == 2 && |q| > 1;
        assert f.Edge(q[|q| - 2], q[|q| - 1]);
        assert q[|q| - 2] == 1;
      }
    }
  }

  /** In the do-while loop it moves to the preheader. */
  lemma DoWhileMoves(c: int, ls: seq<Label>, dt: DomTree, s: set<Reg>)
    requires ls == [1] && DomTreeOk(DoWhileLoop(c), dt) && InvariantSet(DoWhileLoop(c), ls, s)
    ensures var g := Hoist(DoWhileLoop(c), ls, 0, Hoisted(DoWhileLoop(c), ls, dt, s)); Bump(c) in g.blocks[0].body && Bump(c) !in g.blocks[1].body
  {
    var f := DoWhileLoop(c);
    DoWhileWellFormed(c);
    assert ls[0] == 1 && f.blocks[1].body[0] == Bump(c);
    BumpComputable(f, ls, c);
    DoWhileThroughBody(c, ls);
    HoistPlacesOne(f, ls, 0, dt, s, 1, Bump(c));
  }
}
