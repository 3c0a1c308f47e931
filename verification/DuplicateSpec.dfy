/** What cloneBB turns a function into. */
module DuplicateSpec {
  import opened IR
  import opened Renaming

  // ----- Names of the new instructions -----

  /** Instruction i of the cloned body gets the register base + 3 * i; base is n + 1 for the first
      clone, n + 2 for the second and n + 3 for the joining PHI. */
  function Arm(body: seq<Instr>, base: nat, i: nat): map<Reg, Reg>
    requires i <= |body|
  {
    if i == 0 then map[]
    else if body[i - 1].op.ty == Void then Arm(body, base, i - 1)
    else Arm(body, base, i - 1)[body[i - 1].dst := base + 3 * (i - 1)]
  }

  /** The first i instructions of a clone: operands from the same clone, everything else renamed by rho. */
  function ArmBody(body: seq<Instr>, base: nat, rho: map<Reg, Reg>, i: nat): (b: seq<Instr>)
    requires i <= |body|
    ensures |b| == i
  {
    if i == 0 then []
    else
      ArmBody(body, base, rho, i - 1) +
      [Instr(base + 3 * (i - 1), body[i - 1].op, SubOps(rho + Arm(body, base, i - 1), body[i - 1].args))]
  }

  function JoinPhi(ty: Ty, n: nat, k: nat, i: nat): Phi
    requires i > 0
  {
    Phi(n + 3 * i, ty, [(k, Ref(n + 3 * i - 2)), (k + 1, Ref(n + 3 * i - 1))])
  }

  /** The PHIs that join the first i instructions' values. */
  function TailPhis(body: seq<Instr>, n: nat, k: nat, i: nat): seq<Phi>
    requires i <= |body|
  {
    if i == 0 then []
    else
      TailPhis(body, n, k, i - 1) +
      if body[i - 1].op.ty == Void then []
      else [JoinPhi(body[i - 1].op.ty, n, k, i)]
  }

  // ----- The cloned function -----

  function InsertAfter(s: seq<Label>, l: Label, new': seq<Label>): seq<Label> {
    if s == [] then []
    else if s[0] == l then [l] + new' + s[1..]
    else [s[0]] + InsertAfter(s[1..], l, new')
  }

  /** Entries for the edge from l now are for the edge from t. */
  function Relabel(inc: seq<(Label, Operand)>, l: Label, t: Label): (r: seq<(Label, Operand)>)
    ensures |r| == |inc|
  {
    seq(|inc|, i requires 0 <= i < |inc| => (if inc[i].0 == l then t else inc[i].0, inc[i].1))
  }

  function RelabelPhis(phis: seq<Phi>, l: Label, t: Label): (r: seq<Phi>)
    ensures |r| == |phis|
  {
    seq(|phis|, i requires 0 <= i < |phis| => phis[i].(incoming := Relabel(phis[i].incoming, l, t)))
  }

  const IS_NULL: Op := Op(IsNull, IntTy(1), false, false, true, false)

  function JumpTo(l: Label): Term { Term(Uncond, [], [l]) }

  function HeadBlock(phis: seq<Phi>, ctx: Operand, n: nat, k: nat): Block {
    Block(phis, [Instr(n, IS_NULL, [ctx])], Term(Cond, [Ref(n)], [k, k + 1]))
  }

  /** The PHIs of block m when its predecessor l is split and t ends it. */
  function PhisAfterSplit(f: Func, l: Label, t: Label, m: Label): seq<Phi>
    requires l in f.blocks && m in f.blocks
  {
    if m in f.blocks[l].term.targets then RelabelPhis(f.blocks[m].phis, l, t) else f.blocks[m].phis
  }

  function Rho(f: Func, l: Label, n: nat): map<Reg, Reg>
    requires l in f.blocks
  {
    Arm(f.blocks[l].body, n + 3, |f.blocks[l].body|)
  }

  function OtherBlock(f: Func, l: Label, k: nat, m: Label): Block
    requires l in f.blocks && m in f.blocks
  {
    Block(PhisAfterSplit(f, l, k + 2, m), f.blocks[m].body, f.blocks[m].term)
  }

  function NewHead(f: Func, l: Label, ctx: Operand, n: nat, k: nat): Block
    requires l in f.blocks
  {
    SubBlock(Rho(f, l, n), HeadBlock(PhisAfterSplit(f, l, k + 2, l), ctx, n, k))
  }

  function NewOther(f: Func, l: Label, n: nat, k: nat, m: Label): Block
    requires l in f.blocks && m in f.blocks
  {
    SubBlock(Rho(f, l, n), OtherBlock(f, l, k, m))
  }

  function NewArm(f: Func, l: Label, n: nat, k: nat, a: nat): Block
    requires l in f.blocks
  {
    Block([], ArmBody(f.blocks[l].body, n + 1 + a, Rho(f, l, n), |f.blocks[l].body|), JumpTo(k + 2))
  }

  function NewTail(f: Func, l: Label, n: nat, k: nat): Block
    requires l in f.blocks
  {
    Block(TailPhis(f.blocks[l].body, n, k, |f.blocks[l].body|), [], SubTerm(Rho(f, l, n), f.blocks[l].term))
  }

  function CloneBlock(f: Func, l: Label, ctx: Operand, n: nat, k: nat, m: Label): Block
    requires l in f.blocks && (m in f.blocks || k <= m <= k + 2)
  {
    if m == k + 2 then NewTail(f, l, n, k)
    else if m == k || m == k + 1 then NewArm(f, l, n, k, m - k)
    else if m == l then NewHead(f, l, ctx, n, k)
    else NewOther(f, l, n, k, m)
  }

  /** Block l is split after its PHIs; its body runs in block k or k + 1, and block k + 2 joins them
      and leaves as l did. */
  function Clone(f: Func, l: Label, ctx: Operand, n: nat, k: nat): Func
    requires l in f.blocks
  {
    Func(InsertAfter(f.order, l, [k, k + 1, k + 2]),
         map m | m in f.blocks.Keys + {k, k + 1, k + 2} :: CloneBlock(f, l, ctx, n, k, m))
  }

  lemma CloneHas(f: Func, l: Label, ctx: Operand, n: nat, k: nat, m: Label)
    requires l in f.blocks
    ensures m in Clone(f, l, ctx, n, k).blocks <==> m in f.blocks || k <= m <= k + 2
    ensures m in Clone(f, l, ctx, n, k).blocks ==> Clone(f, l, ctx, n, k).blocks[m] == CloneBlock(f, l, ctx, n, k, m)
  {
  }

  ghost predicate LabelsBelow(f: Func, k: nat) {
    forall m :: m in f.blocks ==> m < k
  }
}
