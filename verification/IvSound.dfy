/** Rewriting one derived induction variable preserves the meaning. */
module IvSound {
  import opened IR
  import opened Semantics
  import opened Renaming
  import opened Paths
  import opened ModMath
  import opened IvMath
  import opened IvSpec

  // ----- Induction variables over a run -----

  /** The run is about to enter the header of the loop after n steps. */
  ghost predicate AtHeader(w: World, f: Func, h: Label, n: nat)
    requires f.order != []
  {
    Run(w, f, n).At? && Run(w, f, n).cur == h && h in f.blocks
  }

  /** How many times the header was entered from inside the loop since it was entered from outside. */
  ghost function Iteration(w: World, f: Func, loop: Loop, n: nat): nat
    requires f.order != []
  {
    if n == 0 then 0
    else if !AtHeader(w, f, loop.header, n) then Iteration(w, f, loop, n - 1)
    else if Run(w, f, n).prev in loop.blocks then Iteration(w, f, loop, n - 1) + 1
    else 0
  }

  /** The registers after the PHIs of the block that c is about to enter. */
  ghost function PhiEnv(w: World, f: Func, c: Config): Env
    requires c.At? && c.cur in f.blocks
  {
    EvalPhis(w, f.blocks[c.cur].phis, c.prev, c.env, c.env)
  }

  /** The recurrence is true of every run through the loop. */
  ghost predicate Recurs(w: World, f: Func, loop: Loop, a: Rec)
    requires f.order != []
  {
    forall n: nat :: AtHeader(w, f, loop.header, n) ==>
      Get(PhiEnv(w, f, Run(w, f, n)), a.phi) == Recurrence(a.start, a.step, a.width, Iteration(w, f, loop, n))
  }

  /** No visit of the loop has more than t iterations. */
  ghost predicate Trips(w: World, f: Func, loop: Loop, t: nat)
    requires f.order != []
  {
    forall n: nat :: AtHeader(w, f, loop.header, n) ==> Iteration(w, f, loop, n) < t
  }

  /** The closed form computed from the primary is right in every iteration. */
  ghost predicate Exact(w: World, f: Func, loop: Loop, width: nat, a: Rec)
    requires f.order != [] && 0 < width
  {
    forall n: nat :: AtHeader(w, f, loop.header, n) ==>
      ClosedForm(a.start, a.step, width, a.width, Iteration(w, f, loop, n)) == Recurrence(a.start, a.step, a.width, Iteration(w, f, loop, n))
  }

  // ----- Functions in step, except for some registers -----

  /** Both functions run through the same blocks, and agree before and after the PHIs of each. */
  ghost predicate InStepAt(w: World, f: Func, g: Func, hidden: set<Reg>, n: nat)
    requires f.order != [] && g.order != []
  {
    && Follows(hidden, Run(w, f, n), Run(w, g, n))
    && (Run(w, f, n).At? && Run(w, f, n).cur in f.blocks ==>
         Run(w, g, n).cur in g.blocks && AgreeOff(hidden, PhiEnv(w, f, Run(w, f, n)), PhiEnv(w, g, Run(w, g, n))))
  }

  ghost predicate InStep(w: World, f: Func, g: Func, hidden: set<Reg>) {
    && f.order != [] && g.order != [] && f.blocks.Keys == g.blocks.Keys
    && forall n: nat :: InStepAt(w, f, g, hidden, n)
  }

  lemma InStepLocks(w: World, f: Func, g: Func, hidden: set<Reg>)
    requires InStep(w, f, g, hidden)
    ensures Lockstep(w, f, g)
  {
    forall n: nat
      ensures Look(Run(w, f, n)) == Look(Run(w, g, n))
    {
      assert InStepAt(w, f, g, hidden, n);
    }
  }

  lemma {:induction false} SameIteration(w: World, f: Func, g: Func, hidden: set<Reg>, loop: Loop, n: nat)
    requires InStep(w, f, g, hidden)
    ensures Iteration(w, g, loop, n) == Iteration(w, f, loop, n)
    ensures AtHeader(w, g, loop.header, n) <==> AtHeader(w, f, loop.header, n)
  {
    assert InStepAt(w, f, g, hidden, n);
    if n > 0 {
      SameIteration(w, f, g, hidden, loop, n - 1);
    }
  }

  /** A recurrence of a register that is not hidden is true of both. */
  lemma RecursKept(w: World, f: Func, g: Func, hidden: set<Reg>, loop: Loop, a: Rec)
    requires InStep(w, f, g, hidden) && a.phi !in hidden && Recurs(w, f, loop, a)
    ensures Recurs(w, g, loop, a)
  {
    forall n: nat | AtHeader(w, g, loop.header, n)
      ensures Get(PhiEnv(w, g, Run(w, g, n)), a.phi) == Recurrence(a.start, a.step, a.width, Iteration(w, g, loop, n))
    {
      SameIteration(w, f, g, hidden, loop, n);
      assert InStepAt(w, f, g, hidden, n);
    }
  }

  lemma ExactKept(w: World, f: Func, g: Func, hidden: set<Reg>, loop: Loop, width: nat, a: Rec)
    requires 0 < width && InStep(w, f, g, hidden) && Exact(w, f, loop, width, a)
    ensures Exact(w, g, loop, width, a)
  {
    forall n: nat | AtHeader(w, g, loop.header, n)
      ensures ClosedForm(a.start, a.step, width, a.width, Iteration(w, g, loop, n)) == Recurrence(a.start, a.step, a.width, Iteration(w, g, loop, n))
    {
      SameIteration(w, f, g, hidden, loop, n);
    }
  }

  // ----- Reading the closed form instead of the PHI -----

  /** e' has d's value in nv too, and may differ from e in the new registers. */
  ghost predicate Mirrors(new': set<Reg>, d: Reg, nv: Reg, e: Env, e': Env) {
    AgreeOff(new', e, e') && Get(e', nv) == Get(e, d)
  }

  lemma SubVal(w: World, new': set<Reg>, d: Reg, nv: Reg, x: Operand, e: Env, e': Env)
    requires Mirrors(new', d, nv, e, e') && (x.Ref? ==> x.r !in new')
    ensures Val(w, SubOp(map[d := nv], x), e') == Val(w, x, e) == Val(w, x, e')
  {
  }

  lemma SubVals(w: World, new': set<Reg>, d: Reg, nv: Reg, xs: seq<Operand>, e: Env, e': Env)
    requires Mirrors(new', d, nv, e, e') && Avoids(new', xs)
    ensures Vals(w, SubOps(map[d := nv], xs), e') == Vals(w, xs, e) == Vals(w, xs, e')
  {
    forall i | 0 <= i < |xs|
      ensures Vals(w, SubOps(map[d := nv], xs), e')[i] == Vals(w, xs, e)[i] == Vals(w, xs, e')[i]
    {
      SubVal(w, new', d, nv, xs[i], e, e');
    }
  }

  /** An instruction as it was, or with its uses of d replaced. */
  ghost predicate Variant(m: map<Reg, Reg>, x: Instr, y: Instr) { y == x || y == ReplaceInstr(m, x) }

  ghost predicate BodyVariant(m: map<Reg, Reg>, body: seq<Instr>, body': seq<Instr>) {
    |body'| == |body| && forall i :: 0 <= i < |body| ==> Variant(m, body[i], body'[i])
  }

  /** The body reads no new register and writes neither those nor d. */
  ghost predicate BodyApart(new': set<Reg>, d: Reg, body: seq<Instr>) {
    forall i :: 0 <= i < |body| ==> body[i].dst !in new' && body[i].dst != d && Avoids(new', body[i].args)
  }

  lemma {:induction false} BodyMirrors(w: World, new': set<Reg>, d: Reg, nv: Reg, body: seq<Instr>, body': seq<Instr>, e: Env, e': Env, mem: Mem)
    requires BodyVariant(map[d := nv], body, body') && BodyApart(new', d, body) && Mirrors(new', d, nv, e, e') && nv in new'
    ensures var a, b := ExecBody(w, body, e, mem), ExecBody(w, body', e', mem);
      if a.Ran? then b.Ran? && b.mem == a.mem && Mirrors(new', d, nv, a.env, b.env) else b == a
    decreases body
  {
    if body != [] {
      assert Variant(map[d := nv], body[0], body'[0]);
      SubVals(w, new', d, nv, body[0].args, e, e');
      var a, b := ExecInstr(w, body[0], e, mem), ExecInstr(w, body'[0], e', mem);
      if a.Ran? {
        BodyMirrors(w, new', d, nv, body[1..], body'[1..], a.env, b.env, a.mem);
      }
    }
  }

  /** The PHIs as they were, or with their uses of d replaced. */
  ghost predicate PhisVariant(m: map<Reg, Reg>, phis: seq<Phi>, phis': seq<Phi>) { phis' == phis || phis' == SubPhis(m, phis) }

  ghost predicate PhisApart(new': set<Reg>, phis: seq<Phi>) {
    && (forall i :: 0 <= i < |phis| ==> phis[i].dst !in new')
    && (forall i, k :: 0 <= i < |phis| && 0 <= k < |phis[i].incoming| && phis[i].incoming[k].1.Ref? ==>
         phis[i].incoming[k].1.r !in new')
  }

  lemma {:induction false} IncomingApart(new': set<Reg>, inc: seq<(Label, Operand)>, p: Label)
    requires forall k :: 0 <= k < |inc| && inc[k].1.Ref? ==> inc[k].1.r !in new'
    ensures Incoming(inc, p).Ref? ==> Incoming(inc, p).r !in new'
  {
    if inc != [] {
      IncomingApart(new', inc[1..], p);
    }
  }

  lemma {:induction false} PhisMirror(w: World, new': set<Reg>, d: Reg, nv: Reg, phis: seq<Phi>, phis': seq<Phi>, p: Label, e: Env, e': Env, acc: Env, acc': Env)
    requires PhisVariant(map[d := nv], phis, phis') && PhisApart(new', phis) && Mirrors(new', d, nv, e, e') && AgreeOff(new', acc, acc')
    ensures AgreeOff(new', EvalPhis(w, phis, p, e, acc), EvalPhis(w, phis', p, e', acc'))
    decreases phis
  {
    if phis != [] {
      var m := map[d := nv];
      SubIncomingIs(m, phis[0].incoming, p);
      IncomingApart(new', phis[0].incoming, p);
      SubVal(w, new', d, nv, Incoming(phis[0].incoming, p), e, e');
      assert SubPhis(m, phis)[1..] == SubPhis(m, phis[1..]);
      var v := Val(w, Incoming(phis[0].incoming, p), e);
      PhisMirror(w, new', d, nv, phis[1..], phis'[1..], p, e, e', acc[phis[0].dst := v], acc'[phis[0].dst := v]);
    }
  }

  // ----- The new instructions -----

  /** The operations the pass inserts mean what they say. */
  ghost predicate Computes(w: World) {
    && (forall k, x, y, m :: w.eval(Arith(Mul, k), [x, y], m) == Ok(Norm(x * y, k), m))
    && (forall k, x, y, m :: w.eval(Arith(Add, k), [x, y], m) == Ok(Norm(x + y, k), m))
    && (forall k, x, m :: w.eval(Arith(Trunc, k), [x], m) == Ok(Norm(x, k), m))
    && (forall p: nat, k, x: nat, m :: 0 < p ==> w.eval(Arith(SExt(p), k), [x], m) == Ok(SignExtend(x, p, k), m))
  }

  lemma OneInstr(w: World, x: Instr, e: Env, mem: Mem, v: int)
    requires w.eval(x.op, Vals(w, x.args, e), mem) == Ok(v, mem) && !x.op.dbg && x.op.ty != Void
    ensures ExecBody(w, [x], e, mem) == Ran(e[x.dst := v], mem)
  {
    assert [x][1..] == [];
  }

  /** The primary's value, cast to the width of the derived variable. */
  lemma CastRuns(w: World, prim: Rec, width: nat, n: nat, e: Env, mem: Mem, k: nat)
    requires Computes(w) && 0 < prim.width && Get(e, prim.phi) == Norm(k, prim.width) && prim.phi < n
    ensures var r := ExecBody(w, CastInstrs(prim, width, n), e, mem);
      && r.Ran? && r.mem == mem && AgreeOff({n}, e, r.env)
      && Val(w, PrimaryValue(prim, width, n), r.env) == CastTo(Norm(k, prim.width), prim.width, width)
  {
    assert Vals(w, [Ref(prim.phi)], e) == [Norm(k, prim.width)];
    if prim.width < width {
      OneInstr(w, Instr(n, Arith(SExt(prim.width), width), [Ref(prim.phi)]), e, mem, SignExtend(Norm(k, prim.width), prim.width, width));
    } else if prim.width > width {
      OneInstr(w, Instr(n, Arith(Trunc, width), [Ref(prim.phi)]), e, mem, Norm(Norm(k, prim.width), width));
    }
  }

  lemma TwoInstrs(w: World, x: Instr, y: Instr, e: Env, mem: Mem, u: int, v: int)
    requires w.eval(x.op, Vals(w, x.args, e), mem) == Ok(u, mem) && !x.op.dbg && x.op.ty != Void
    requires w.eval(y.op, Vals(w, y.args, e[x.dst := u]), mem) == Ok(v, mem) && !y.op.dbg && y.op.ty != Void
    ensures ExecBody(w, [x, y], e, mem) == Ran(e[x.dst := u][y.dst := v], mem)
  {
    assert [x, y][1..] == [y];
    OneInstr(w, y, e[x.dst := u], mem, v);
  }

  /** The new instructions leave the closed form in register n + 2. */
  lemma NewRun(w: World, prim: Rec, a: Rec, n: nat, e: Env, mem: Mem, k: nat)
    requires Computes(w) && 0 < prim.width && Get(e, prim.phi) == Norm(k, prim.width) && prim.phi < n
    ensures var r := ExecBody(w, NewInstrs(prim, a, n), e, mem);
      && r.Ran? && r.mem == mem && AgreeOff({n, n + 1, n + 2}, e, r.env)
      && Get(r.env, n + 2) == ClosedForm(a.start, a.step, prim.width, a.width, k)
  {
    var x := Instr(n + 1, Arith(Mul, a.width), [PrimaryValue(prim, a.width, n), Const(a.step)]);
    var y := Instr(n + 2, Arith(Add, a.width), [Const(a.start), Ref(n + 1)]);
    CastRuns(w, prim, a.width, n, e, mem, k);
    ExecBodyAppend(w, CastInstrs(prim, a.width, n), [x, y], e, mem);
    var e1 := ExecBody(w, CastInstrs(prim, a.width, n), e, mem).env;
    var c := CastTo(Norm(k, prim.width), prim.width, a.width);
    assert Vals(w, x.args, e1) == [c, a.step];
    var u := Norm(c * a.step, a.width);
    assert Vals(w, y.args, e1[n + 1 := u]) == [a.start, u];
    TwoInstrs(w, x, y, e1, mem, u, Norm(a.start + u, a.width));
  }

  // ----- One block -----

  ghost predicate BlockVariant(m: map<Reg, Reg>, b: Block, b': Block) {
    PhisVariant(m, b.phis, b'.phis) && BodyVariant(m, b.body, b'.body) && (b'.term == b.term || b'.term == SubTerm(m, b.term))
  }

  ghost predicate BlockApart(new': set<Reg>, d: Reg, b: Block) {
    PhisApart(new', b.phis) && BodyApart(new', d, b.body) && Avoids(new', b.term.uses)
  }

  ghost predicate MirrorNext(new': set<Reg>, d: Reg, nv: Reg, c: Config, c': Config) {
    if c.At? then c'.At? && c'.prev == c.prev && c'.cur == c.cur && c'.mem == c.mem && Mirrors(new', d, nv, c.env, c'.env)
    else c' == c
  }

  lemma LeaveMirrors(w: World, new': set<Reg>, d: Reg, nv: Reg, t: Term, t': Term, cur: Label, e: Env, e': Env, mem: Mem)
    requires (t' == t || t' == SubTerm(map[d := nv], t)) && Avoids(new', t.uses) && Mirrors(new', d, nv, e, e')
    ensures MirrorNext(new', d, nv, Leave(w, t, cur, e, mem), Leave(w, t', cur, e', mem))
  {
    SubVals(w, new', d, nv, t.uses, e, e');
  }

  lemma RestMirrors(w: World, new': set<Reg>, d: Reg, nv: Reg, b: Block, b': Block, cur: Label, e: Env, e': Env, mem: Mem)
    requires BlockVariant(map[d := nv], b, b') && BlockApart(new', d, b) && nv in new' && Mirrors(new', d, nv, e, e')
    ensures var r, r' := ExecBody(w, b.body, e, mem), ExecBody(w, b'.body, e', mem);
      if r.Ran? then
        r'.Ran? && MirrorNext(new', d, nv, Leave(w, b.term, cur, r.env, r.mem), Leave(w, b'.term, cur, r'.env, r'.mem))
      else r' == r
  {
    BodyMirrors(w, new', d, nv, b.body, b'.body, e, e', mem);
    var r, r' := ExecBody(w, b.body, e, mem), ExecBody(w, b'.body, e', mem);
    if r.Ran? {
      LeaveMirrors(w, new', d, nv, b.term, b'.term, cur, r.env, r'.env, r.mem);
    }
  }

  lemma OtherStep(w: World, new': set<Reg>, d: Reg, nv: Reg, b: Block, b': Block, prev: Label, cur: Label, e: Env, e': Env, mem: Mem)
    requires BlockVariant(map[d := nv], b, b') && BlockApart(new', d, b) && nv in new' && Mirrors(new', d, nv, e, e')
    requires forall i :: 0 <= i < |b.phis| ==> b.phis[i].dst != d
    ensures MirrorNext(new', d, nv, StepBlock(w, b, prev, cur, e, mem), StepBlock(w, b', prev, cur, e', mem))
    ensures AgreeOff(new', EvalPhis(w, b.phis, prev, e, e), EvalPhis(w, b'.phis, prev, e', e'))
  {
    PhisMirror(w, new', d, nv, b.phis, b'.phis, prev, e, e', e, e');
    EvalPhisFrame(w, b.phis, prev, e, e, d);
    EvalPhisFrame(w, b'.phis, prev, e', e', nv);
    RestMirrors(w, new', d, nv, b, b', cur, EvalPhis(w, b.phis, prev, e, e), EvalPhis(w, b'.phis, prev, e', e'), mem);
  }

  /** The header: the new instructions run after its PHIs. */
  lemma HeaderStep(w: World, d: Reg, n: nat, prim: Rec, a: Rec, b: Block, b': Block, prev: Label, cur: Label, e: Env, e': Env, mem: Mem, k: nat)
    requires var new' := {n, n + 1, n + 2};
      BlockVariant(map[d := n + 2], b, b') && BlockApart(new', d, b) && Mirrors(new', d, n + 2, e, e')
    requires Computes(w) && 0 < prim.width && prim.phi < n
    requires var e1 := EvalPhis(w, b.phis, prev, e, e);
      Get(e1, prim.phi) == Norm(k, prim.width) && Get(e1, d) == ClosedForm(a.start, a.step, prim.width, a.width, k)
    ensures MirrorNext({n, n + 1, n + 2}, d, n + 2, StepBlock(w, b, prev, cur, e, mem),
                       StepBlock(w, b'.(body := NewInstrs(prim, a, n) + b'.body), prev, cur, e', mem))
    ensures AgreeOff({n, n + 1, n + 2}, EvalPhis(w, b.phis, prev, e, e), EvalPhis(w, b'.phis, prev, e', e'))
  {
    var new' := {n, n + 1, n + 2};
    PhisMirror(w, new', d, n + 2, b.phis, b'.phis, prev, e, e', e, e');
    var e1, e1' := EvalPhis(w, b.phis, prev, e, e), EvalPhis(w, b'.phis, prev, e', e');
    NewRun(w, prim, a, n, e1', mem, k);
    ExecBodyAppend(w, NewInstrs(prim, a, n), b'.body, e1', mem);
    RestMirrors(w, new', d, n + 2, b, b', cur, e1, ExecBody(w, NewInstrs(prim, a, n), e1', mem).env, mem);
  }
}
