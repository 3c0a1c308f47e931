/** What DerivedInductionVar decides, and what it turns a function into. */
module IvSpec {
  import opened IR
  import opened Renaming
  import opened Paths

  // ----- What scalar evolution says about a PHI -----

  /** start and step are None when they are not constants. */
  datatype Scev = AddRec(affine: bool, start: Option<int>, step: Option<int>) | NotRec

  type Scevs = map<Reg, Scev>

  predicate IsRec(scevs: Scevs, phi: Phi) {
    phi.ty.IntTy? && phi.dst in scevs && scevs[phi.dst].AddRec? && scevs[phi.dst].affine
  }

  predicate IsConstRec(scevs: Scevs, phi: Phi) {
    IsRec(scevs, phi) && scevs[phi.dst].start.Some? && scevs[phi.dst].step.Some?
  }

  /** Starts at 0 with step 1. */
  predicate IsPrimary(scevs: Scevs, phi: Phi) {
    IsConstRec(scevs, phi) && scevs[phi.dst].start.value == 0 && scevs[phi.dst].step.value == 1
  }

  /** A register that is start + k * step, modulo 2^width, in iteration k. */
  datatype Rec = Rec(phi: Reg, width: nat, start: int, step: int)

  function RecOf(scevs: Scevs, phi: Phi): Rec
    requires IsConstRec(scevs, phi)
  {
    Rec(phi.dst, phi.ty.width, scevs[phi.dst].start.value, scevs[phi.dst].step.value)
  }

  /** The first header PHI that is a primary induction variable. */
  function PrimaryOf(scevs: Scevs, phis: seq<Phi>): Option<Phi> {
    if phis == [] then None
    else if IsPrimary(scevs, phis[0]) then Some(phis[0])
    else PrimaryOf(scevs, phis[1..])
  }

  /** The other header PHIs that are induction variables. */
  function DerivedOf(scevs: Scevs, primary: Reg, phis: seq<Phi>): seq<Phi> {
    if phis == [] then []
    else
      var n := |phis| - 1;
      DerivedOf(scevs, primary, phis[..n]) +
      if IsRec(scevs, phis[n]) && phis[n].dst != primary then [phis[n]] else []
  }

  // ----- The new instructions -----

  function CastInstrs(prim: Rec, width: nat, n: nat): seq<Instr> {
    if prim.width < width then [Instr(n, Arith(SExt(prim.width), width), [Ref(prim.phi)])]
    else if prim.width > width then [Instr(n, Arith(Trunc, width), [Ref(prim.phi)])]
    else []
  }

  function PrimaryValue(prim: Rec, width: nat, n: nat): Operand {
    if prim.width == width then Ref(prim.phi) else Ref(n)
  }

  /** start + primary * step, in register n + 2. */
  function NewInstrs(prim: Rec, a: Rec, n: nat): seq<Instr> {
    CastInstrs(prim, a.width, n) +
    [Instr(n + 1, Arith(Mul, a.width), [PrimaryValue(prim, a.width, n), Const(a.step)]),
     Instr(n + 2, Arith(Add, a.width), [Const(a.start), Ref(n + 1)])]
  }

  // ----- Replacing uses -----

  /** The operands of a debug intrinsic are metadata and not uses. */
  function ReplaceInstr(m: map<Reg, Reg>, i: Instr): Instr { if i.op.dbg then i else SubInstr(m, i) }

  function ReplaceBody(m: map<Reg, Reg>, body: seq<Instr>): (b: seq<Instr>)
    ensures |b| == |body|
  {
    seq(|body|, i requires 0 <= i < |body| => ReplaceInstr(m, body[i]))
  }

  function ReplaceBlock(m: map<Reg, Reg>, b: Block): Block {
    Block(SubPhis(m, b.phis), ReplaceBody(m, b.body), SubTerm(m, b.term))
  }

  function WithNew(f: Func, h: Label, new': seq<Instr>): Func
    requires h in f.blocks
  {
    Func(f.order, f.blocks[h := f.blocks[h].(body := new' + f.blocks[h].body)])
  }

  function ReplaceInLoop(f: Func, ls: seq<Label>, m: map<Reg, Reg>): Func {
    Func(f.order, map l | l in f.blocks :: if l in ls then ReplaceBlock(m, f.blocks[l]) else f.blocks[l])
  }

  predicate UsedInLoop(f: Func, ls: seq<Label>, r: Reg) {
    exists s :: s in UseSites(f, r) && s.l in ls
  }

  /** Every use of a's PHI in the loop becomes a use of the closed form. */
  function Rewrite(f: Func, loop: Loop, prim: Rec, a: Rec, n: nat): Func
    requires loop.header in f.blocks
  {
    ReplaceInLoop(WithNew(f, loop.header, NewInstrs(prim, a, n)), loop.blocks, map[a.phi := n + 2])
  }

  function WithoutPhis(phis: seq<Phi>, dead: set<Reg>): seq<Phi> {
    if phis == [] then []
    else (if phis[0].dst in dead then [] else [phis[0]]) + WithoutPhis(phis[1..], dead)
  }

  function ErasePhis(f: Func, h: Label, dead: set<Reg>): Func
    requires h in f.blocks
  {
    Func(f.order, f.blocks[h := f.blocks[h].(phis := WithoutPhis(f.blocks[h].phis, dead))])
  }

  // ----- One loop -----

  /** The function so far, the next free register, and the PHIs to erase. */
  datatype Progress = Progress(f: Func, n: nat, dead: set<Reg>)

  /** One derived PHI: skipped when start or step is not constant; erased later if it had uses in the
      loop and now has none. */
  function RewriteOne(s: Progress, loop: Loop, prim: Rec, scevs: Scevs, phi: Phi): (t: Progress)
    requires loop.header in s.f.blocks
    ensures t.f.blocks.Keys == s.f.blocks.Keys
  {
    if !IsConstRec(scevs, phi) then s
    else
      var a := RecOf(scevs, phi);
      var g := Rewrite(s.f, loop, prim, a, s.n);
      var used := UsedInLoop(WithNew(s.f, loop.header, NewInstrs(prim, a, s.n)), loop.blocks, a.phi);
      Progress(g, s.n + 3, if used && UseEmpty(g, a.phi) then s.dead + {a.phi} else s.dead)
  }

  function RewriteAll(s: Progress, loop: Loop, prim: Rec, scevs: Scevs, phis: seq<Phi>): (t: Progress)
    requires loop.header in s.f.blocks
    ensures t.f.blocks.Keys == s.f.blocks.Keys
  {
    if phis == [] then s
    else RewriteOne(RewriteAll(s, loop, prim, scevs, phis[..|phis| - 1]), loop, prim, scevs, phis[|phis| - 1])
  }

  /** The function and the next free register after one innermost loop. */
  function ProcessLoop(f: Func, loop: Loop, scevs: Scevs, n: nat): (r: (Func, nat))
    requires loop.header in f.blocks
    ensures r.0.blocks.Keys == f.blocks.Keys
  {
    var phis := f.blocks[loop.header].phis;
    var p := PrimaryOf(scevs, phis);
    if p.None? || !IsConstRec(scevs, p.value) then (f, n)
    else
      var t := RewriteAll(Progress(f, n, {}), loop, RecOf(scevs, p.value), scevs, DerivedOf(scevs, p.value.dst, phis));
      (ErasePhis(t.f, loop.header, t.dead), t.n)
  }

  /** The innermost loops one after the other. */
  function ProcessAll(f: Func, loops: seq<Loop>, scevs: Scevs, n: nat): (r: (Func, nat))
    requires forall loop :: loop in loops ==> loop.header in f.blocks
    ensures r.0.blocks.Keys == f.blocks.Keys
    decreases loops
  {
    if loops == [] then (f, n)
    else
      var t := ProcessLoop(f, loops[0], scevs, n);
      ProcessAll(t.0, loops[1..], scevs, t.1)
  }
}
