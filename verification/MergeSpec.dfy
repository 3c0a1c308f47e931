/** What MergeBB decides and what it does to the function, as functions of the current function. */
module MergeSpec {
  import opened IR

  // ----- Comparing two blocks -----

  function NonDbgUpTo(b: Block, n: nat): (ps: seq<nat>)
    requires n <= Count(b)
    ensures forall k :: 0 <= k < |ps| ==> ps[k] < n
  {
    if n == 0 then [] else NonDbgUpTo(b, n - 1) + (if DbgAt(b, n - 1) then [] else [n - 1])
  }

  /** Positions of the instructions that are not debug intrinsics, without the terminator. */
  function NonDbg(b: Block): seq<nat> { NonDbgUpTo(b, Count(b)) }

  lemma {:induction false} NonDbgUpToIs(b: Block, n: nat)
    requires n <= Count(b)
    ensures forall k :: 0 <= k < |NonDbgUpTo(b, n)| ==> !DbgAt(b, NonDbgUpTo(b, n)[k])
    ensures forall i :: 0 <= i < n && !DbgAt(b, i) ==> i in NonDbgUpTo(b, n)
  {
    if n > 0 {
      NonDbgUpToIs(b, n - 1);
    }
  }

  /** The instructions do the same operation on as many operands of the same types.  For PHIs the
      incoming blocks are not compared. */
  predicate SameOperation(b1: Block, i: nat, b2: Block, j: nat)
    requires i < Count(b1) && j < Count(b2)
  {
    if IsPhiAt(b1, i) || IsPhiAt(b2, j) then
      && IsPhiAt(b1, i) && IsPhiAt(b2, j)
      && b1.phis[i].ty == b2.phis[j].ty
      && |b1.phis[i].incoming| == |b2.phis[j].incoming|
    else
      && b1.body[i - |b1.phis|].op == b2.body[j - |b2.phis|].op
      && |b1.body[i - |b1.phis|].args| == |b2.body[j - |b2.phis|].args|
  }

  /** The use s of r, defined in l, is the entry of a PHI of l's successor for the edge from l. */
  predicate UsedInPhi(f: Func, l: Label, r: Reg, s: Site)
    requires l in f.blocks && UsedAt(f, s, r)
  {
    && f.blocks[l].term.targets != []
    && s.l == f.blocks[l].term.targets[0]
    && IsPhiAt(f.blocks[s.l], s.i)
    && Incoming(f.blocks[s.l].phis[s.i].incoming, l) == Ref(r)
  }

  predicate CanRemoveInst(f: Func, l: Label, i: nat)
    requires l in f.blocks && i < Count(f.blocks[l])
  {
    var r := DstAt(f.blocks[l], i);
    exists s | s in UseSites(f, r) :: s.l == l || UsedInPhi(f, l, r, s)
  }

  predicate CanMergeInstructions(f: Func, a: Label, i: nat, b: Label, j: nat)
    requires a in f.blocks && i < Count(f.blocks[a]) && b in f.blocks && j < Count(f.blocks[b])
  {
    var r, q := DstAt(f.blocks[a], i), DstAt(f.blocks[b], j);
    && SameOperation(f.blocks[a], i, f.blocks[b], j)
    && (if UseEmpty(f, r) then UseEmpty(f, q)
        else
          && HasOneUse(f, r) && HasOneUse(f, q)
          && CanRemoveInst(f, a, i) && CanRemoveInst(f, b, j))
    && OperandsAt(f.blocks[a], i) == OperandsAt(f.blocks[b], j)
  }

  /** The two blocks agree instruction by instruction, debug intrinsics and terminators aside. */
  predicate BodiesMatch(f: Func, a: Label, b: Label)
    requires a in f.blocks && b in f.blocks
  {
    var p, q := NonDbg(f.blocks[a]), NonDbg(f.blocks[b]);
    |p| == |q| && forall k | 0 <= k < |p| :: CanMergeInstructions(f, a, p[k], b, q[k])
  }

  // ----- Choosing a pair of blocks -----

  predicate EndsInBranch(f: Func, l: Label)
    requires l in f.blocks
  {
    f.blocks[l].term.kind == Uncond && |f.blocks[l].term.targets| == 1
  }

  predicate BranchOrSwitch(k: Kind) { k == Uncond || k == Cond || k.Switch? }

  /** The block may be erased: not the entry, left by an unconditional branch to a block with at
      most one PHI, entered by branches and switches only. */
  predicate Erasable(f: Func, a: Label)
    requires f.order != []
  {
    && a in f.blocks && a != f.order[0]
    && EndsInBranch(f, a)
    && (forall p | p in f.blocks :: f.Edge(p, a) ==> BranchOrSwitch(f.blocks[p].term.kind))
    && f.blocks[a].term.targets[0] in f.blocks
    && |f.blocks[f.blocks[a].term.targets[0]].phis| <= 1
  }

  predicate DefinedIn(f: Func, l: Label, x: Operand)
    requires l in f.blocks
  {
    x.Ref? && exists i | 0 <= i < Count(f.blocks[l]) :: DstAt(f.blocks[l], i) == x.r
  }

  /** The successor's PHI, if any, takes the same value from both blocks, or one of each block's own. */
  predicate PhiAllows(f: Func, a: Label, b: Label)
    requires a in f.blocks && b in f.blocks && EndsInBranch(f, a) && f.blocks[a].term.targets[0] in f.blocks
  {
    var phis := f.blocks[f.blocks[a].term.targets[0]].phis;
    phis != [] ==>
      var x, y := Incoming(phis[0].incoming, a), Incoming(phis[0].incoming, b);
      x == y || (DefinedIn(f, a, x) && DefinedIn(f, b, y))
  }

  /** a, which may be erased, can be merged into b. */
  predicate Mergeable(f: Func, deleted: set<Label>, a: Label, b: Label)
    requires f.order != []
  {
    && Erasable(f, a)
    && b in f.blocks && b != f.order[0] && EndsInBranch(f, b)
    && f.blocks[b].term.targets[0] == f.blocks[a].term.targets[0]
    && b !in deleted && b != a
    && |NonDbg(f.blocks[a])| == |NonDbg(f.blocks[b])|
    && PhiAllows(f, a, b)
    && BodiesMatch(f, a, b)
  }

  // ----- What merging blocks with PHIs would have to check -----

  /** Every predecessor of a is one of b, if a has PHIs. */
  predicate PredsShared(f: Func, a: Label, b: Label)
    requires a in f.blocks && b in f.blocks
  {
    f.blocks[a].phis == [] || forall p | p in f.blocks :: f.Edge(p, a) ==> f.Edge(p, b)
  }

  /** Every predecessor of a is one of b, and the PHIs of the two blocks take the same operands from
      it.  MergeBB does not check this; it holds of blocks without PHIs. */
  predicate PhisMatch(f: Func, a: Label, b: Label)
    requires a in f.blocks && b in f.blocks
  {
    forall p, i | p in f.blocks && 0 <= i < |f.blocks[a].phis| ::
      f.Edge(p, a) ==>
        && f.Edge(p, b) && i < |f.blocks[b].phis|
        && Incoming(f.blocks[a].phis[i].incoming, p) == Incoming(f.blocks[b].phis[i].incoming, p)
  }

  // ----- The rewrites -----

  function Ren(a: Label, b: Label, l: Label): Label { if l == a then b else l }

  function RedirectTargets(ts: seq<Label>, a: Label, b: Label): (r: seq<Label>)
    ensures |r| == |ts|
    ensures forall i :: 0 <= i < |ts| ==> r[i] == Ren(a, b, ts[i])
  {
    seq(|ts|, i requires 0 <= i < |ts| => Ren(a, b, ts[i]))
  }

  function RedirectBlock(x: Block, a: Label, b: Label): Block {
    x.(term := x.term.(targets := RedirectTargets(x.term.targets, a, b)))
  }

  /** Every edge into a now goes to b. */
  function Redirect(f: Func, a: Label, b: Label): Func {
    f.(blocks := map l | l in f.blocks :: RedirectBlock(f.blocks[l], a, b))
  }

  function Without(s: seq<Label>, a: Label): seq<Label> {
    if s == [] then [] else (if s[0] == a then [] else [s[0]]) + Without(s[1..], a)
  }

  function DropEntries(inc: seq<(Label, Operand)>, a: Label): seq<(Label, Operand)> {
    if inc == [] then [] else (if inc[0].0 == a then [] else [inc[0]]) + DropEntries(inc[1..], a)
  }

  function DropInBlock(x: Block, a: Label): Block {
    x.(phis := seq(|x.phis|, i requires 0 <= i < |x.phis| =>
      x.phis[i].(incoming := DropEntries(x.phis[i].incoming, a))))
  }

  /** a is removed, and with it a's entries in the PHIs of its successors. */
  function Drop(f: Func, a: Label): Func
    requires a in f.blocks
  {
    Func(Without(f.order, a),
         map l | l in f.blocks && l != a ::
           if l in f.blocks[a].term.targets then DropInBlock(f.blocks[l], a) else f.blocks[l])
  }
}
