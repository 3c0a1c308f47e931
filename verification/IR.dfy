/** A small SSA control-flow-graph representation.

    A function is an ordered list of basic blocks.  A block is a list of PHIs, a body and a
    terminator.  Every instruction, also one that produces no value, carries an identifier
    (`dst`) that no other instruction of the function has; operands name values by identifier. */
module IR {
  type Label = nat
  type Reg = nat

  datatype Option<+T> = None | Some(value: T)

  datatype Ty = Void | IntTy(width: nat) | OtherTy

  datatype Opcode =
    | Add | Sub | Mul | Xor | And
    | SExt(from: nat) | Trunc
    | IsNull
    | Other(code: int)

  /** mem: may read or write memory.  call: a call or invoke.  safe: never traps, so it may be
      executed speculatively.  dbg: a debug intrinsic, whose operands are metadata and not uses. */
  datatype Op = Op(code: Opcode, ty: Ty, mem: bool, call: bool, safe: bool, dbg: bool)

  /** Arithmetic on integers of one width. */
  function Arith(code: Opcode, width: nat): Op { Op(code, IntTy(width), false, false, true, false) }

  datatype Operand =
    | Const(n: int)
    | Global(g: nat)
    | Arg(a: nat)
    | Ref(r: Reg)

  datatype Instr = Instr(dst: Reg, op: Op, args: seq<Operand>)

  datatype Phi = Phi(dst: Reg, ty: Ty, incoming: seq<(Label, Operand)>)

  datatype Kind =
    | Uncond
    | Cond
    | Switch(cases: seq<int>)
    | Indirect
    | Return
    | Unreachable

  /** targets[0] is the true target of Cond and the default target of Switch. */
  datatype Term = Term(kind: Kind, uses: seq<Operand>, targets: seq<Label>)

  datatype Block = Block(phis: seq<Phi>, body: seq<Instr>, term: Term)

  datatype Func = Func(order: seq<Label>, blocks: map<Label, Block>)
  {
    predicate Edge(p: Label, s: Label) {
      p in blocks && s in blocks[p].term.targets
    }
  }

  /** The body and the PHIs of a block, seen as one list of instructions with the PHIs first;
      position Count(b) stands for the terminator. */
  function Count(b: Block): nat { |b.phis| + |b.body| }

  predicate IsPhiAt(b: Block, i: int) { 0 <= i < |b.phis| }

  function DstAt(b: Block, i: nat): Reg
    requires i < Count(b)
  {
    if i < |b.phis| then b.phis[i].dst else b.body[i - |b.phis|].dst
  }

  function TyAt(b: Block, i: nat): Ty
    requires i < Count(b)
  {
    if i < |b.phis| then b.phis[i].ty else b.body[i - |b.phis|].op.ty
  }

  predicate DbgAt(b: Block, i: nat)
    requires i < Count(b)
  {
    i >= |b.phis| && b.body[i - |b.phis|].op.dbg
  }

  function IncomingValues(inc: seq<(Label, Operand)>): seq<Operand> {
    seq(|inc|, i requires 0 <= i < |inc| => inc[i].1)
  }

  /** The operands that count as uses. */
  function OperandsAt(b: Block, i: nat): seq<Operand>
    requires i <= Count(b)
  {
    if i < |b.phis| then IncomingValues(b.phis[i].incoming)
    else if i == Count(b) then b.term.uses
    else if DbgAt(b, i) then []
    else b.body[i - |b.phis|].args
  }

  /** The value a PHI takes on the edge from p; Const(0) stands for a missing entry. */
  function Incoming(inc: seq<(Label, Operand)>, p: Label): Operand {
    if inc == [] then Const(0)
    else if inc[0].0 == p then inc[0].1
    else Incoming(inc[1..], p)
  }

  predicate Lists(inc: seq<(Label, Operand)>, p: Label) {
    exists i :: 0 <= i < |inc| && inc[i].0 == p
  }

  lemma {:induction false} IncomingAt(inc: seq<(Label, Operand)>, p: Label) returns (i: nat)
    requires Lists(inc, p)
    ensures i < |inc| && inc[i].0 == p && Incoming(inc, p) == inc[i].1
  {
    if inc[0].0 == p {
      i := 0;
    } else {
      var j :| 0 <= j < |inc| && inc[j].0 == p;
      assert inc[1..][j - 1].0 == p;
      i := IncomingAt(inc[1..], p);
      i := i + 1;
    }
  }

  lemma {:induction false} IncomingMissing(inc: seq<(Label, Operand)>, p: Label)
    requires !Lists(inc, p)
    ensures Incoming(inc, p) == Const(0)
  {
    if inc != [] {
      assert inc[0].0 != p;
      assert forall j :: 0 <= j < |inc[1..]| ==> inc[1..][j] == inc[j + 1];
      IncomingMissing(inc[1..], p);
    }
  }

  // ----- Uses -----

  ghost predicate ReadsReg(x: Instr, r: Reg) { Ref(r) in x.args }

  /** Operand k of position i of block l. */
  datatype Site = Site(l: Label, i: nat, k: nat)

  predicate UsedAt(f: Func, s: Site, r: Reg) {
    && s.l in f.blocks
    && s.i <= Count(f.blocks[s.l])
    && s.k < |OperandsAt(f.blocks[s.l], s.i)|
    && OperandsAt(f.blocks[s.l], s.i)[s.k] == Ref(r)
  }

  function UseSites(f: Func, r: Reg): (sites: set<Site>)
    ensures forall s :: s in sites <==> UsedAt(f, s, r)
  {
    set l, i, k |
      l in f.blocks && 0 <= i <= Count(f.blocks[l]) && 0 <= k < |OperandsAt(f.blocks[l], i)|
      && OperandsAt(f.blocks[l], i)[k] == Ref(r)
      :: Site(l, i, k)
  }

  predicate HasOneUse(f: Func, r: Reg) { |UseSites(f, r)| == 1 }

  predicate UseEmpty(f: Func, r: Reg) { UseSites(f, r) == {} }

  lemma TwoElements<T>(s: set<T>, x: T, y: T)
    requires x in s && y in s && x != y
    ensures |s| >= 2
  {
    assert {x, y} <= s;
    assert |s - {x, y}| == |s| - 2;
  }

  lemma OneUse(f: Func, r: Reg) returns (s: Site)
    requires HasOneUse(f, r)
    ensures UsedAt(f, s, r)
    ensures forall t :: UsedAt(f, t, r) ==> t == s
  {
    var sites := UseSites(f, r);
    s :| s in sites;
    forall t | UsedAt(f, t, r)
      ensures t == s
    {
      assert t in sites;
      if t != s {
        TwoElements(sites, s, t);
      }
    }
  }

  // ----- Well-formed functions -----

  ghost predicate Pos(f: Func, l: Label, i: int) { l in f.blocks && 0 <= i < Count(f.blocks[l]) }

  ghost predicate UniqueDefs(f: Func) {
    forall l, i, m, j {:trigger Pos(f, l, i), Pos(f, m, j)} ::
      Pos(f, l, i) && Pos(f, m, j) && DstAt(f.blocks[l], i) == DstAt(f.blocks[m], j)
      ==> l == m && i == j
  }

  lemma OneDef(f: Func, l: Label, i: nat, m: Label, j: nat)
    requires UniqueDefs(f) && l in f.blocks && i < Count(f.blocks[l]) && m in f.blocks && j < Count(f.blocks[m])
    requires DstAt(f.blocks[l], i) == DstAt(f.blocks[m], j)
    ensures l == m && i == j
  {
    assert Pos(f, l, i) && Pos(f, m, j);
  }

  ghost predicate DistinctDsts(p: seq<Instr>) {
    forall j, k :: 0 <= j < k < |p| ==> p[j].dst != p[k].dst
  }

  ghost predicate DistinctDefs(x: Block) {
    forall i, j :: 0 <= i < j < Count(x) ==> DstAt(x, i) != DstAt(x, j)
  }

  lemma DistinctBody(x: Block)
    requires DistinctDefs(x)
    ensures DistinctDsts(x.body)
    ensures forall j, k :: 0 <= j < |x.phis| && 0 <= k < |x.body| ==> x.phis[j].dst != x.body[k].dst
    ensures forall j, k :: 0 <= j < k < |x.phis| ==> x.phis[j].dst != x.phis[k].dst
  {
    var m := |x.phis|;
    forall j, k | 0 <= j < k < |x.body|
      ensures x.body[j].dst != x.body[k].dst
    {
      assert DstAt(x, m + j) != DstAt(x, m + k);
    }
    forall j, k | 0 <= j < m && 0 <= k < |x.body|
      ensures x.phis[j].dst != x.body[k].dst
    {
      assert DstAt(x, j) != DstAt(x, m + k);
    }
    forall j, k | 0 <= j < k < m
      ensures x.phis[j].dst != x.phis[k].dst
    {
      assert DstAt(x, j) != DstAt(x, k);
    }
  }

  lemma BlockDefsDistinct(f: Func, l: Label)
    requires UniqueDefs(f) && l in f.blocks
    ensures DistinctDefs(f.blocks[l])
  {
    var x := f.blocks[l];
    forall j, k | 0 <= j < k < Count(x)
      ensures DstAt(x, j) != DstAt(x, k)
    {
      if DstAt(x, j) == DstAt(x, k) {
        OneDef(f, l, j, l, k);
      }
    }
  }

  ghost predicate DefinedAt(f: Func, l: Label, i: nat, r: Reg) {
    && l in f.blocks
    && i < Count(f.blocks[l])
    && DstAt(f.blocks[l], i) == r
    && TyAt(f.blocks[l], i) != Void
    && !DbgAt(f.blocks[l], i)
  }

  ghost predicate RefsDefined(f: Func) {
    forall s, r :: UsedAt(f, s, r) ==> exists l, i :: DefinedAt(f, l, i, r)
  }

  ghost predicate Shape(f: Func) {
    && f.order != []
    && (forall i, j :: 0 <= i < j < |f.order| ==> f.order[i] != f.order[j])
    && (forall l :: l in f.order <==> l in f.blocks)
  }

  ghost predicate TermOk(f: Func, t: Term)
    requires f.order != []
  {
    && (forall s :: s in t.targets ==> s in f.blocks && s != f.order[0])
    && (t.kind == Uncond ==> t.uses == [] && |t.targets| == 1)
    && (t.kind == Cond ==> |t.uses| == 1 && |t.targets| == 2)
    && (t.kind.Switch? ==> |t.uses| == 1 && |t.targets| == 1 + |t.kind.cases|)
    && (t.kind == Return || t.kind == Unreachable ==> t.targets == [])
  }

  /** Every PHI has an entry for every predecessor, and only for predecessors. */
  ghost predicate PhisCover(f: Func, s: Label)
    requires s in f.blocks
  {
    forall i, p :: 0 <= i < |f.blocks[s].phis| ==>
      (Lists(f.blocks[s].phis[i].incoming, p) <==> f.Edge(p, s))
  }

  /** What the IR verifier guarantees before a pass starts. */
  ghost predicate WellFormed(f: Func) {
    && Shape(f)
    && f.blocks[f.order[0]].phis == []
    && (forall l :: l in f.blocks ==> TermOk(f, f.blocks[l].term))
    && UniqueDefs(f)
    && RefsDefined(f)
    && (forall l :: l in f.blocks ==> PhisCover(f, l))
  }
}
