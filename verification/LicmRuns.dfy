/** Every run of the function after hoisting is in lockstep with a run of the original. */
module LicmRuns {
  import opened IR
  import opened Semantics
  import opened Paths
  import opened StrictSsa
  import opened LicmSpec
  import opened LicmSound
  import opened LicmPaths

  // ----- One block -----

  lemma {:induction false} SteadyPhis(w: World, hs: seq<Instr>, phis: seq<Phi>, prev: Label, src: Env, acc: Env)
    requires Steady(w, hs, acc) && forall i :: 0 <= i < |phis| ==> Foreign(hs, phis[i].dst)
    ensures Steady(w, hs, EvalPhis(w, phis, prev, src, acc))
  {
    if phis != [] {
      var v := Val(w, Incoming(phis[0].incoming, prev), src);
      SteadyStays(w, hs, acc, phis[0].dst, v);
      SteadyPhis(w, hs, phis[1..], prev, src, acc[phis[0].dst := v]);
    }
  }

  ghost predicate PhisSame(w: World, phis: seq<Phi>, prev: Label, e: Env, e': Env) {
    forall i :: 0 <= i < |phis| ==> Val(w, Incoming(phis[i].incoming, prev), e) == Val(w, Incoming(phis[i].incoming, prev), e')
  }

  /** The state after a block, seen from both functions. */
  ghost predicate SameNext(w: World, hs: seq<Instr>, d: set<Reg>, c: Config, c': Config) {
    if c.At? then
      c'.At? && c'.prev == c.prev && c'.cur == c.cur && c'.mem == c.mem && AgreeOff(d, c.env, c'.env) && Steady(w, hs, c'.env)
    else c' == c
  }

  lemma BlockStep(w: World, h: set<Reg>, hs: seq<Instr>, d: set<Reg>, b: Block, prev: Label, l: Label, e: Env, e': Env, mem: Mem)
    requires Honest(w) && BodyFits(h, hs, b.body) && Steady(w, hs, e') && ReadsFresh(d, b.body) && AgreeOff(d, e, e')
    requires PhisSame(w, b.phis, prev, e, e') && forall i :: 0 <= i < |b.phis| ==> Foreign(hs, b.phis[i].dst)
    requires Avoids(d - Made(b.body), b.term.uses)
    ensures SameNext(w, hs, d - Made(b.body), StepBlock(w, b, prev, l, e, mem),
                     StepBlock(w, b.(body := Left(b.body, h)), prev, l, e', mem))
  {
    SamePhisRun(w, d, b.phis, prev, prev, e, e', e, e');
    SteadyPhis(w, hs, b.phis, prev, e', e');
    var e1, e1' := EvalPhis(w, b.phis, prev, e, e), EvalPhis(w, b.phis, prev, e', e');
    BodyWithout(w, h, hs, d, b.body, e1, e1', mem);
    var a, a' := ExecBody(w, b.body, e1, mem), ExecBody(w, Left(b.body, h), e1', mem);
    if a.Ran? {
      ValsAgree(w, d - Made(b.body), b.term.uses, a.env, a'.env);
    }
  }

  lemma {:induction false} LeftAll(body: seq<Instr>)
    ensures Left(body, {}) == body
  {
    if body != [] {
      LeftAll(body[1..]);
    }
  }

  /** A block without hoisted instructions. */
  lemma PlainStep(w: World, d: set<Reg>, b: Block, prev: Label, l: Label, e: Env, e': Env, mem: Mem)
    requires Honest(w) && ReadsFresh(d, b.body) && AgreeOff(d, e, e')
    requires PhisSame(w, b.phis, prev, e, e') && Avoids(d - Made(b.body), b.term.uses)
    ensures SameNext(w, [], d - Made(b.body), StepBlock(w, b, prev, l, e, mem), StepBlock(w, b, prev, l, e', mem))
  {
    LeftAll(b.body);
    BlockStep(w, {}, [], d, b, prev, l, e, e', mem);
    assert b.(body := Left(b.body, {})) == b;
  }

  /** The preheader: the hoisted instructions run at its end. */
  lemma PreheaderStep(w: World, hs: seq<Instr>, d: set<Reg>, h: set<Reg>, b: Block, prev: Label, l: Label, e: Env, e': Env, mem: Mem)
    requires Honest(w) && ReadsFresh(d, b.body) && AgreeOff(d, e, e') && PhisSame(w, b.phis, prev, e, e')
    requires DefsFirst(hs) && Movable(hs) && d <= h && Dsts(hs) <= h
    requires b.term.kind == Uncond && b.term.uses == []
    ensures SameNext(w, hs, h, StepBlock(w, b, prev, l, e, mem), StepBlock(w, b.(body := b.body + hs), prev, l, e', mem))
  {
    PlainStep(w, d, b, prev, l, e, e', mem);
    var e1' := EvalPhis(w, b.phis, prev, e', e');
    ExecBodyAppend(w, b.body, hs, e1', mem);
    var a' := ExecBody(w, b.body, e1', mem);
    if a'.Ran? {
      HoistedRun(w, hs, a'.env, a'.mem);
    }
  }

  /** The instructions in h pass the rule within h, and are safe. */
  ghost predicate OperandClosed(f: Func, ls: seq<Label>, h: set<Reg>)
    requires forall l :: l in ls ==> l in f.blocks
  {
    forall x :: InBody(f, ls, x) && x.dst in h ==> Invariant(LoopRegs(f, ls), h, x) && x.op.safe
  }

  /** What holds of the function, the loop and the hoisted set before the pass. */
  ghost predicate Setup(f: Func, loop: Loop, p: Label, h: set<Reg>) {
    && WellFormed(f) && Ssa(f) && LoopOk(f, loop, p)
    && HomesInLoop(f, loop.blocks, h) && OperandClosed(f, loop.blocks, h)
    && DefsFirst(Picked(f, loop.blocks, h)) && Movable(Picked(f, loop.blocks, h))
  }

  lemma NotPhi(f: Func, ls: seq<Label>, h: set<Reg>, l: Label, j: nat)
    requires forall l :: l in ls ==> l in f.blocks
    requires UniqueDefs(f) && HomesInLoop(f, ls, h) && l in f.blocks && j < |f.blocks[l].phis|
    ensures f.blocks[l].phis[j].dst !in h
  {
    var r := f.blocks[l].phis[j].dst;
    if r in h {
      var x :| InBody(f, ls, x) && x.dst == r;
      var m :| m in ls && x in f.blocks[m].body;
      var i :| 0 <= i < |f.blocks[m].body| && f.blocks[m].body[i] == x;
      OneDef(f, l, j, m, |f.blocks[m].phis| + i);
    }
  }

  lemma ReadFresh(f: Func, loop: Loop, p: Label, h: set<Reg>, q: seq<Label>, prev: Label, l: Label, i: int, r: Reg)
    requires f.order != [] && LoopOk(f, loop, p) && UniqueDefs(f) && HomesInLoop(f, loop.blocks, h)
    requires Arrived(f, q, prev, l) && PathInBlocks(f, q) && l in f.blocks && Reaches(f, l, i, r)
    ensures r !in h - Fresh(f, p, h, q) || MadeBefore(f.blocks[l].body, i, r)
  {
    if r in h && !MadeBefore(f.blocks[l].body, i, r) {
      if exists j :: 0 <= j < |f.blocks[l].phis| && f.blocks[l].phis[j].dst == r {
        var j :| 0 <= j < |f.blocks[l].phis| && f.blocks[l].phis[j].dst == r;
        NotPhi(f, loop.blocks, h, l, j);
      } else {
        FreshAtEntry(f, loop, p, h, q, prev, l, r);
      }
    }
  }

  lemma BlockReads(f: Func, loop: Loop, p: Label, h: set<Reg>, q: seq<Label>, prev: Label, l: Label)
    requires f.order != [] && LoopOk(f, loop, p) && UniqueDefs(f) && HomesInLoop(f, loop.blocks, h)
    requires Arrived(f, q, prev, l) && PathInBlocks(f, q) && l in f.blocks && BodySsa(f, l)
    ensures ReadsFresh(h - Fresh(f, p, h, q), f.blocks[l].body)
    ensures Avoids(h - Fresh(f, p, h, q) - Made(f.blocks[l].body), f.blocks[l].term.uses)
  {
    var b, d := f.blocks[l], h - Fresh(f, p, h, q);
    forall i, k | 0 <= i < |b.body| && !b.body[i].op.dbg && 0 <= k < |b.body[i].args| && b.body[i].args[k].Ref?
      ensures b.body[i].args[k].r !in d || MadeBefore(b.body, i, b.body[i].args[k].r)
    {
      ReadFresh(f, loop, p, h, q, prev, l, i, b.body[i].args[k].r);
    }
    forall k | 0 <= k < |b.term.uses| && b.term.uses[k].Ref?
      ensures b.term.uses[k].r !in d - Made(b.body)
    {
      ReadFresh(f, loop, p, h, q, prev, l, |b.body|, b.term.uses[k].r);
    }
  }

  lemma BlockPhis(w: World, f: Func, loop: Loop, p: Label, h: set<Reg>, q: seq<Label>, prev: Label, l: Label, e: Env, e': Env)
    requires f.order != [] && LoopOk(f, loop, p) && UniqueDefs(f) && HomesInLoop(f, loop.blocks, h)
    requires Arrived(f, q, prev, l) && PathInBlocks(f, q) && l in f.blocks && PhisSsa(f, f.blocks[l])
    requires f.blocks[f.order[0]].phis == [] && AgreeOff(h - Fresh(f, p, h, q), e, e')
    ensures PhisSame(w, f.blocks[l].phis, prev, e, e')
  {
    var phis := f.blocks[l].phis;
    forall i | 0 <= i < |phis|
      ensures Val(w, Incoming(phis[i].incoming, prev), e) == Val(w, Incoming(phis[i].incoming, prev), e')
    {
      if Lists(phis[i].incoming, prev) {
        var k := IncomingAt(phis[i].incoming, prev);
        var x := phis[i].incoming[k].1;
        if x.Ref? && x.r in h {
          FreshAtEnd(f, loop, p, h, q, x.r);
        }
      } else {
        IncomingMissing(phis[i].incoming, prev);
      }
    }
  }

  // ----- The hoisted instructions as a list -----

  lemma {:induction false} TakenIs(body: seq<Instr>, h: set<Reg>, x: Instr)
    ensures x in Taken(body, h) <==> x in body && x.dst in h
  {
    if body != [] {
      TakenIs(body[1..], h, x);
      assert body == [body[0]] + body[1..];
    }
  }

  lemma {:induction false} PickedIs(f: Func, ls: seq<Label>, h: set<Reg>, x: Instr)
    requires forall l :: l in ls ==> l in f.blocks
    ensures x in Picked(f, ls, h) <==> InBody(f, ls, x) && x.dst in h
  {
    if ls != [] {
      var n := |ls| - 1;
      PickedIs(f, ls[..n], h, x);
      TakenIs(f.blocks[ls[n]].body, h, x);
      assert ls == ls[..n] + [ls[n]];
    }
  }

  lemma RegInLoop(f: Func, ls: seq<Label>, l: Label, i: nat)
    requires (forall l :: l in ls ==> l in f.blocks) && l in ls && i < Count(f.blocks[l])
    ensures DstAt(f.blocks[l], i) in LoopRegs(f, ls)
  {
  }

  /** What the loop writes outside h the hoisted instructions do not read. */
  lemma ForeignInLoop(f: Func, ls: seq<Label>, h: set<Reg>, r: Reg)
    requires forall l :: l in ls ==> l in f.blocks
    requires OperandClosed(f, ls, h) && r in LoopRegs(f, ls) && r !in h
    ensures Foreign(Picked(f, ls, h), r)
  {
    forall x | x in Picked(f, ls, h)
      ensures !ReadsReg(x, r) && x.dst != r
    {
      PickedIs(f, ls, h, x);
      assert Invariant(LoopRegs(f, ls), h, x);
    }
  }

  lemma LoopBodyFits(f: Func, ls: seq<Label>, h: set<Reg>, l: Label)
    requires forall l :: l in ls ==> l in f.blocks
    requires OperandClosed(f, ls, h) && l in ls
    ensures BodyFits(h, Picked(f, ls, h), f.blocks[l].body)
  {
    var b := f.blocks[l];
    forall x | x in b.body
      ensures if x.dst in h then x in Picked(f, ls, h) && RegisterOnly(x.op) && x.op.safe else Foreign(Picked(f, ls, h), x.dst)
    {
      assert InBody(f, ls, x);
      if x.dst in h {
        PickedIs(f, ls, h, x);
        assert Invariant(LoopRegs(f, ls), h, x);
      } else {
        var i :| 0 <= i < |b.body| && b.body[i] == x;
        RegInLoop(f, ls, l, |b.phis| + i);
        ForeignInLoop(f, ls, h, x.dst);
      }
    }
  }

  lemma LoopPhisForeign(f: Func, ls: seq<Label>, h: set<Reg>, l: Label)
    requires forall l :: l in ls ==> l in f.blocks
    requires UniqueDefs(f) && HomesInLoop(f, ls, h) && OperandClosed(f, ls, h) && l in ls
    ensures forall i :: 0 <= i < |f.blocks[l].phis| ==> Foreign(Picked(f, ls, h), f.blocks[l].phis[i].dst)
  {
    forall i | 0 <= i < |f.blocks[l].phis|
      ensures Foreign(Picked(f, ls, h), f.blocks[l].phis[i].dst)
    {
      RegInLoop(f, ls, l, i);
      NotPhi(f, ls, h, l, i);
      ForeignInLoop(f, ls, h, f.blocks[l].phis[i].dst);
    }
  }

  lemma PickedDsts(f: Func, ls: seq<Label>, h: set<Reg>)
    requires forall l :: l in ls ==> l in f.blocks
    ensures Dsts(Picked(f, ls, h)) <= h
  {
    var hs := Picked(f, ls, h);
    forall k | 0 <= k < |hs|
      ensures hs[k].dst in h
    {
      PickedIs(f, ls, h, hs[k]);
    }
  }

  // ----- The simulation -----

  /** Both functions are between the same blocks with the same memory.  They agree on every register
      except the hoisted ones that the original has not computed since it last left the preheader;
      inside the loop the new function has the current value of every hoisted instruction. */
  ghost predicate Related(w: World, f: Func, loop: Loop, p: Label, h: set<Reg>, q: seq<Label>, c: Config, c': Config)
    requires f.order != [] && forall l :: l in loop.blocks ==> l in f.blocks
  {
    if c.At? then
      && c'.At? && c'.prev == c.prev && c'.cur == c.cur && c'.mem == c.mem
      && c.cur in f.blocks && Arrived(f, q, c.prev, c.cur) && PathInBlocks(f, q)
      && AgreeOff(h - Fresh(f, p, h, q), c.env, c'.env)
      && (c.cur in loop.blocks ==> Steady(w, Picked(f, loop.blocks, h), c'.env))
    else c' == c
  }

  lemma FreshNext(f: Func, p: Label, h: set<Reg>, q: seq<Label>, l: Label)
    requires l in f.blocks
    ensures l == p ==> h - Fresh(f, p, h, q + [l]) == h
    ensures l != p ==> h - Fresh(f, p, h, q + [l]) == h - Fresh(f, p, h, q) - Made(f.blocks[l].body)
  {
    assert (q + [l])[..|q + [l]| - 1] == q;
  }

  lemma ArrivedNext(w: World, f: Func, q: seq<Label>, c: Config)
    requires Shape(f) && (forall l :: l in f.blocks ==> TermOk(f, f.blocks[l].term))
    requires c.At? && c.cur in f.blocks && Arrived(f, q, c.prev, c.cur) && PathInBlocks(f, q) && Step(w, f, c).At?
    ensures var d := Step(w, f, c);
      Arrived(f, q + [c.cur], d.prev, d.cur) && PathInBlocks(f, q + [c.cur]) && d.cur in f.blocks && f.Edge(c.cur, d.cur)
  {
    LeaveTarget(w, f, c);
    assert TermOk(f, f.blocks[c.cur].term);
  }

  lemma RelatedNext(w: World, f: Func, loop: Loop, p: Label, h: set<Reg>, q: seq<Label>, c: Config, hs: seq<Instr>, d: set<Reg>, n: Config, n': Config)
    requires Shape(f) && (forall l :: l in f.blocks ==> TermOk(f, f.blocks[l].term)) && LoopOk(f, loop, p)
    requires c.At? && c.cur in f.blocks && Arrived(f, q, c.prev, c.cur) && PathInBlocks(f, q) && n == Step(w, f, c)
    requires SameNext(w, hs, d, n, n') && d == h - Fresh(f, p, h, q + [c.cur])
    requires hs == Picked(f, loop.blocks, h) || (c.cur !in loop.blocks && c.cur != p)
    ensures Related(w, f, loop, p, h, q + [c.cur], n, n')
  {
    if n.At? {
      ArrivedNext(w, f, q, c);
    }
  }

  lemma StepLoop(w: World, f: Func, loop: Loop, p: Label, h: set<Reg>, q: seq<Label>, prev: Label, l: Label, e: Env, e': Env, mem: Mem)
    requires Honest(w) && Setup(f, loop, p, h) && l in loop.blocks && Arrived(f, q, prev, l) && PathInBlocks(f, q)
    requires AgreeOff(h - Fresh(f, p, h, q), e, e') && Steady(w, Picked(f, loop.blocks, h), e')
    ensures SameNext(w, Picked(f, loop.blocks, h), h - Fresh(f, p, h, q + [l]), StepBlock(w, f.blocks[l], prev, l, e, mem),
                     StepBlock(w, HoistBlock(f, loop.blocks, p, h, l), prev, l, e', mem))
  {
    BlockReads(f, loop, p, h, q, prev, l);
    BlockPhis(w, f, loop, p, h, q, prev, l, e, e');
    LoopBodyFits(f, loop.blocks, h, l);
    LoopPhisForeign(f, loop.blocks, h, l);
    BlockStep(w, h, Picked(f, loop.blocks, h), h - Fresh(f, p, h, q), f.blocks[l], prev, l, e, e', mem);
    FreshNext(f, p, h, q, l);
  }

  lemma StepOther(w: World, f: Func, loop: Loop, p: Label, h: set<Reg>, q: seq<Label>, prev: Label, l: Label, e: Env, e': Env, mem: Mem)
    requires Honest(w) && Setup(f, loop, p, h) && l !in loop.blocks && l != p && l in f.blocks
    requires Arrived(f, q, prev, l) && PathInBlocks(f, q) && AgreeOff(h - Fresh(f, p, h, q), e, e')
    ensures SameNext(w, [], h - Fresh(f, p, h, q + [l]), StepBlock(w, f.blocks[l], prev, l, e, mem),
                     StepBlock(w, f.blocks[l], prev, l, e', mem))
  {
    BlockReads(f, loop, p, h, q, prev, l);
    BlockPhis(w, f, loop, p, h, q, prev, l, e, e');
    PlainStep(w, h - Fresh(f, p, h, q), f.blocks[l], prev, l, e, e', mem);
    FreshNext(f, p, h, q, l);
  }

  lemma StepPreheader(w: World, f: Func, loop: Loop, p: Label, h: set<Reg>, q: seq<Label>, prev: Label, e: Env, e': Env, mem: Mem)
    requires Honest(w) && Setup(f, loop, p, h) && Arrived(f, q, prev, p) && PathInBlocks(f, q)
    requires AgreeOff(h - Fresh(f, p, h, q), e, e')
    ensures SameNext(w, Picked(f, loop.blocks, h), h - Fresh(f, p, h, q + [p]), StepBlock(w, f.blocks[p], prev, p, e, mem),
                     StepBlock(w, HoistBlock(f, loop.blocks, p, h, p), prev, p, e', mem))
  {
    BlockReads(f, loop, p, h, q, prev, p);
    BlockPhis(w, f, loop, p, h, q, prev, p, e, e');
    PickedDsts(f, loop.blocks, h);
    PreheaderStep(w, Picked(f, loop.blocks, h), h - Fresh(f, p, h, q), h, f.blocks[p], prev, p, e, e', mem);
    FreshNext(f, p, h, q, p);
  }

  lemma FromPreheader(w: World, f: Func, loop: Loop, p: Label, h: set<Reg>, q: seq<Label>, c: Config, c': Config)
    requires Honest(w) && Setup(f, loop, p, h) && Related(w, f, loop, p, h, q, c, c') && c.At? && c.cur == p
    ensures Related(w, f, loop, p, h, q + [c.cur], Step(w, f, c), Step(w, Hoist(f, loop.blocks, p, h), c'))
  {
    StepPreheader(w, f, loop, p, h, q, c.prev, c.env, c'.env, c.mem);
    RelatedNext(w, f, loop, p, h, q, c, Picked(f, loop.blocks, h), h - Fresh(f, p, h, q + [c.cur]), Step(w, f, c), Step(w, Hoist(f, loop.blocks, p, h), c'));
  }

  lemma FromLoop(w: World, f: Func, loop: Loop, p: Label, h: set<Reg>, q: seq<Label>, c: Config, c': Config)
    requires Honest(w) && Setup(f, loop, p, h) && Related(w, f, loop, p, h, q, c, c') && c.At? && c.cur in loop.blocks
    ensures Related(w, f, loop, p, h, q + [c.cur], Step(w, f, c), Step(w, Hoist(f, loop.blocks, p, h), c'))
  {
    StepLoop(w, f, loop, p, h, q, c.prev, c.cur, c.env, c'.env, c.mem);
    RelatedNext(w, f, loop, p, h, q, c, Picked(f, loop.blocks, h), h - Fresh(f, p, h, q + [c.cur]), Step(w, f, c), Step(w, Hoist(f, loop.blocks, p, h), c'));
  }

  lemma FromOther(w: World, f: Func, loop: Loop, p: Label, h: set<Reg>, q: seq<Label>, c: Config, c': Config)
    requires Honest(w) && Setup(f, loop, p, h) && Related(w, f, loop, p, h, q, c, c') && c.At? && c.cur !in loop.blocks && c.cur != p
    ensures Related(w, f, loop, p, h, q + [c.cur], Step(w, f, c), Step(w, Hoist(f, loop.blocks, p, h), c'))
  {
    StepOther(w, f, loop, p, h, q, c.prev, c.cur, c.env, c'.env, c.mem);
    RelatedNext(w, f, loop, p, h, q, c, [], h - Fresh(f, p, h, q + [c.cur]), Step(w, f, c), Step(w, Hoist(f, loop.blocks, p, h), c'));
  }

  lemma StepRelated(w: World, f: Func, loop: Loop, p: Label, h: set<Reg>, q: seq<Label>, c: Config, c': Config)
    requires Honest(w) && Setup(f, loop, p, h) && Related(w, f, loop, p, h, q, c, c') && c.At?
    ensures Related(w, f, loop, p, h, q + [c.cur], Step(w, f, c), Step(w, Hoist(f, loop.blocks, p, h), c'))
  {
    if c.cur == p {
      FromPreheader(w, f, loop, p, h, q, c, c');
    } else if c.cur in loop.blocks {
      FromLoop(w, f, loop, p, h, q, c, c');
    } else {
      FromOther(w, f, loop, p, h, q, c, c');
    }
  }

  lemma {:induction false} RunRelated(w: World, f: Func, loop: Loop, p: Label, h: set<Reg>, n: nat) returns (q: seq<Label>)
    requires Honest(w) && Setup(f, loop, p, h)
    ensures Related(w, f, loop, p, h, q, Run(w, f, n), Run(w, Hoist(f, loop.blocks, p, h), n))
  {
    if n == 0 {
      q := [];
      assert f.order[0] in f.order;
    } else {
      q := RunRelated(w, f, loop, p, h, n - 1);
      if Run(w, f, n - 1).At? {
        StepRelated(w, f, loop, p, h, q, Run(w, f, n - 1), Run(w, Hoist(f, loop.blocks, p, h), n - 1));
        q := q + [Run(w, f, n - 1).cur];
      }
    }
  }

  /** Hoisting preserves the meaning: after every number of blocks both functions show the same. */
  lemma HoistPreserves(w: World, f: Func, loop: Loop, p: Label, h: set<Reg>)
    requires Honest(w) && Setup(f, loop, p, h)
    ensures Lockstep(w, f, Hoist(f, loop.blocks, p, h))
  {
    forall n: nat
      ensures Look(Run(w, f, n)) == Look(Run(w, Hoist(f, loop.blocks, p, h), n))
    {
      var q := RunRelated(w, f, loop, p, h, n);
    }
  }
}
