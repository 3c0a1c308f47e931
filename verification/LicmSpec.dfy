/** What SimpleLICM decides, and what it turns a function into. */
module LicmSpec {
  import opened IR
  import opened Paths

  /** What the pass knows about the control flow: (a, b) is in it if a dominates b. */
  type DomTree = set<(Label, Label)>

  // ----- Loop-invariant instructions -----

  /** Every register an instruction of the loop writes. */
  function LoopRegs(f: Func, ls: seq<Label>): set<Reg>
    requires forall l :: l in ls ==> l in f.blocks
  {
    set l, i | l in ls && 0 <= i < Count(f.blocks[l]) :: DstAt(f.blocks[l], i)
  }

  predicate OperandInvariant(inside: set<Reg>, s: set<Reg>, x: Operand) {
    x.Ref? && x.r in inside ==> x.r in s
  }

  predicate OperandsInvariant(inside: set<Reg>, s: set<Reg>, xs: seq<Operand>) {
    forall k :: 0 <= k < |xs| ==> OperandInvariant(inside, s, xs[k])
  }

  /** A computation on registers; a debug intrinsic is a call. */
  predicate RegisterOnly(op: Op) { !op.mem && !op.call && !op.dbg }

  /** The rule: x is invariant if the registers in s are. */
  predicate Invariant(inside: set<Reg>, s: set<Reg>, x: Instr) {
    RegisterOnly(x.op) && OperandsInvariant(inside, s, x.args)
  }

  /** The instructions of the loop, in the order in which the pass looks at them. */
  datatype Inst = PhiInst(l: Label, phi: Phi) | BodyInst(l: Label, x: Instr) | TermInst(l: Label)

  function PhiInsts(l: Label, phis: seq<Phi>): seq<Inst> {
    if phis == [] then [] else [PhiInst(l, phis[0])] + PhiInsts(l, phis[1..])
  }

  function BodyInsts(l: Label, body: seq<Instr>): seq<Inst> {
    if body == [] then [] else [BodyInst(l, body[0])] + BodyInsts(l, body[1..])
  }

  function BlockInsts(l: Label, b: Block): seq<Inst> { PhiInsts(l, b.phis) + BodyInsts(l, b.body) + [TermInst(l)] }

  function LoopInsts(f: Func, ls: seq<Label>): seq<Inst>
    requires forall l :: l in ls ==> l in f.blocks
  {
    if ls == [] then [] else LoopInsts(f, ls[..|ls| - 1]) + BlockInsts(ls[|ls| - 1], f.blocks[ls[|ls| - 1]])
  }

  ghost predicate InBody(f: Func, ls: seq<Label>, x: Instr)
    requires forall l :: l in ls ==> l in f.blocks
  {
    exists l :: l in ls && x in f.blocks[l].body
  }

  ghost predicate Closed(f: Func, ls: seq<Label>, s: set<Reg>)
    requires forall l :: l in ls ==> l in f.blocks
  {
    forall x :: InBody(f, ls, x) && Invariant(LoopRegs(f, ls), s, x) ==> x.dst in s
  }

  /** The least set closed under the rule. */
  ghost predicate InvariantSet(f: Func, ls: seq<Label>, s: set<Reg>)
    requires forall l :: l in ls ==> l in f.blocks
  {
    Closed(f, ls, s) && forall t :: Closed(f, ls, t) ==> s <= t
  }

  /** r is in the set because the rule put it there. */
  ghost predicate HasReason(f: Func, ls: seq<Label>, s: set<Reg>, r: Reg)
    requires forall l :: l in ls ==> l in f.blocks
  {
    exists x :: InBody(f, ls, x) && x.dst == r && Invariant(LoopRegs(f, ls), s, x)
  }

  lemma InvariantSetIsUnique(f: Func, ls: seq<Label>, s: set<Reg>, t: set<Reg>)
    requires forall l :: l in ls ==> l in f.blocks
    requires InvariantSet(f, ls, s) && InvariantSet(f, ls, t)
    ensures s == t
  {
  }

  lemma MembersHaveReasons(f: Func, ls: seq<Label>, s: set<Reg>)
    requires forall l :: l in ls ==> l in f.blocks
    requires InvariantSet(f, ls, s)
    ensures forall r :: r in s ==> HasReason(f, ls, s, r)
  {
    var t := set r | r in s && HasReason(f, ls, s, r);
    forall x | InBody(f, ls, x) && Invariant(LoopRegs(f, ls), t, x)
      ensures x.dst in t
    {
      assert Invariant(LoopRegs(f, ls), s, x);
    }
    assert Closed(f, ls, t);
  }

  // ----- Hoisting -----

  function ExitBlocks(f: Func, ls: seq<Label>): set<Label>
    requires forall l :: l in ls ==> l in f.blocks
  {
    set l, t | l in ls && t in f.blocks[l].term.targets && t !in ls :: t
  }

  predicate DominatesExits(f: Func, ls: seq<Label>, dt: DomTree, l: Label)
    requires forall l :: l in ls ==> l in f.blocks
  {
    forall e :: e in ExitBlocks(f, ls) ==> (l, e) in dt
  }

  /** The instructions of a body whose register is in h, and the others. */
  function Taken(body: seq<Instr>, h: set<Reg>): seq<Instr> {
    if body == [] then []
    else (if body[0].dst in h then [body[0]] else []) + Taken(body[1..], h)
  }

  function Left(body: seq<Instr>, h: set<Reg>): seq<Instr> {
    if body == [] then []
    else (if body[0].dst in h then [] else [body[0]]) + Left(body[1..], h)
  }

  /** The loop's instructions in h, block after block. */
  function Picked(f: Func, ls: seq<Label>, h: set<Reg>): seq<Instr>
    requires forall l :: l in ls ==> l in f.blocks
  {
    if ls == [] then []
    else Picked(f, ls[..|ls| - 1], h) + Taken(f.blocks[ls[|ls| - 1]].body, h)
  }

  /** The registers of the instructions that are moved. */
  function Hoisted(f: Func, ls: seq<Label>, dt: DomTree, s: set<Reg>): set<Reg>
    requires forall l :: l in ls ==> l in f.blocks
  {
    set l, i | l in ls && 0 <= i < |f.blocks[l].body| && f.blocks[l].body[i].dst in s
               && f.blocks[l].body[i].op.safe && DominatesExits(f, ls, dt, l) :: f.blocks[l].body[i].dst
  }

  function HoistBlock(f: Func, ls: seq<Label>, p: Label, h: set<Reg>, l: Label): Block
    requires (forall l :: l in ls ==> l in f.blocks) && l in f.blocks
  {
    var b := f.blocks[l];
    if l == p then b.(body := b.body + Picked(f, ls, h))
    else if l in ls then b.(body := Left(b.body, h))
    else b
  }

  /** The instructions in h move to the end of block p. */
  function Hoist(f: Func, ls: seq<Label>, p: Label, h: set<Reg>): Func
    requires forall l :: l in ls ==> l in f.blocks
  {
    Func(f.order, map l | l in f.blocks :: HoistBlock(f, ls, p, h, l))
  }

  // ----- What the pass is given -----

  /** A loop with preheader p: the preheader jumps to the header, and there is no other way in. */
  ghost predicate LoopOk(f: Func, loop: Loop, p: Label)
    requires f.order != []
  {
    && loop.blocks != [] && loop.blocks[0] == loop.header
    && (forall i, j :: 0 <= i < j < |loop.blocks| ==> loop.blocks[i] != loop.blocks[j])
    && (forall l :: l in loop.blocks ==> l in f.blocks && Reachable(f, l))
    && f.order[0] !in loop.blocks
    && p in f.blocks && p !in loop.blocks
    && f.blocks[p].term == Term(Uncond, [], [loop.header])
    && (forall a, b :: f.Edge(a, b) && b in loop.blocks && a !in loop.blocks ==> a == p)
  }

  ghost predicate DominatorsFirst(f: Func, ls: seq<Label>)
    requires f.order != []
  {
    forall i, j :: 0 <= i < |ls| && 0 <= j < |ls| && Dominates(f, ls[i], ls[j]) ==> i <= j
  }

  ghost predicate DomTreeOk(f: Func, dt: DomTree)
    requires f.order != []
  {
    forall a, b :: a in f.blocks && b in f.blocks ==> ((a, b) in dt <==> Dominates(f, a, b))
  }
}
