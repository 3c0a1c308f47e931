/** The two clones of a block, from the moment DuplicateBB makes them: how they agree, and where
    their values are read. */
module ClonePairs {
  import opened IR
  import opened Semantics
  import opened Renaming
  import opened DuplicateSpec
  import opened DuplicateSound
  import opened DuplicateShape
  import MergeSpec

  /** The register of instruction j in clone e, which is 1 or 2. */
  function ArmReg(n: nat, e: nat, j: nat): Reg { n + e + 3 * j }

  function ArmRegs(n: nat, len: nat): (d: set<Reg>)
    ensures forall r :: r in d ==> n < r < n + 3 * len
  {
    if len == 0 then {} else ArmRegs(n, len - 1) + {ArmReg(n, 1, len - 1), ArmReg(n, 2, len - 1)}
  }

  lemma {:induction false} ArmRegIn(n: nat, len: nat, e: nat, j: nat)
    requires j < len && (e == 1 || e == 2)
    ensures ArmReg(n, e, j) in ArmRegs(n, len)
    decreases len
  {
    if j < len - 1 {
      ArmRegIn(n, len - 1, e, j);
    }
  }

  lemma {:induction false} ArmRegIs(n: nat, len: nat, r: Reg) returns (e: nat, j: nat)
    requires r in ArmRegs(n, len)
    ensures j < len && (e == 1 || e == 2) && r == ArmReg(n, e, j)
  {
    if r == ArmReg(n, 1, len - 1) {
      e, j := 1, len - 1;
    } else if r == ArmReg(n, 2, len - 1) {
      e, j := 2, len - 1;
    } else {
      e, j := ArmRegIs(n, len - 1, r);
    }
  }

  /** The joining PHIs' registers are no clone's. */
  lemma {:induction false} JoinIsNoArm(n: nat, len: nat, j: nat)
    ensures n + 3 * j !in ArmRegs(n, len)
    decreases len
  {
    if len > 0 {
      JoinIsNoArm(n, len - 1, j);
    }
  }

  // ----- Blocks that do not read some registers -----

  ghost predicate BlockAvoids(b: Block, d: set<Reg>) {
    && (forall i :: 0 <= i < |b.body| ==> Avoids(d, b.body[i].args))
    && Avoids(d, b.term.uses)
    && (forall i :: 0 <= i < |b.phis| ==> IncomingAvoids(d, b.phis[i].incoming))
  }

  ghost predicate IncomingAvoids(d: set<Reg>, inc: seq<(Label, Operand)>) {
    forall k :: 0 <= k < |inc| && inc[k].1.Ref? ==> inc[k].1.r !in d
  }

  /** Renaming by m introduces no register of d. */
  ghost predicate Outside(d: set<Reg>, m: map<Reg, Reg>) { forall r :: r in m ==> m[r] !in d }

  lemma SubAvoids(d: set<Reg>, m: map<Reg, Reg>, xs: seq<Operand>)
    requires Avoids(d, xs) && Outside(d, m)
    ensures Avoids(d, SubOps(m, xs))
  {
    forall k | 0 <= k < |xs| && SubOps(m, xs)[k].Ref?
      ensures SubOps(m, xs)[k].r !in d
    {
      assert xs[k].Ref?;
    }
  }

  lemma SubBlockAvoids(d: set<Reg>, m: map<Reg, Reg>, b: Block)
    requires BlockAvoids(b, d) && Outside(d, m)
    ensures BlockAvoids(SubBlock(m, b), d)
  {
    forall i | 0 <= i < |b.body|
      ensures Avoids(d, SubBody(m, b.body)[i].args)
    {
      SubAvoids(d, m, b.body[i].args);
    }
    SubAvoids(d, m, b.term.uses);
    forall i | 0 <= i < |b.phis|
      ensures IncomingAvoids(d, SubPhis(m, b.phis)[i].incoming)
    {
      var inc := b.phis[i].incoming;
      forall k | 0 <= k < |inc| && SubIncoming(m, inc)[k].1.Ref?
        ensures SubIncoming(m, inc)[k].1.r !in d
      {
        assert inc[k].1.Ref?;
      }
    }
  }

  lemma RelabelAvoids(d: set<Reg>, f: Func, l: Label, t: Label, m: Label)
    requires l in f.blocks && m in f.blocks && BlockAvoids(f.blocks[m], d)
    ensures forall i :: 0 <= i < |PhisAfterSplit(f, l, t, m)| ==> IncomingAvoids(d, PhisAfterSplit(f, l, t, m)[i].incoming)
  {
    forall i | 0 <= i < |f.blocks[m].phis|
      ensures IncomingAvoids(d, Relabel(f.blocks[m].phis[i].incoming, l, t))
    {
      assert IncomingAvoids(d, f.blocks[m].phis[i].incoming);
    }
  }

  // ----- Two clones -----

  /** x, an operand of instruction i, is the value of an earlier instruction of the same body. */
  predicate Inner(body: seq<Instr>, i: nat, x: Operand)
    requires i <= |body|
  {
    x.Ref? && x.r in Arm(body, 0, i)
  }

  /** The operand x of one clone and y of the other, which stand for the operand o of the original:
      each clone reads its own values, and both read the same from elsewhere. */
  ghost predicate OperandMatch(body: seq<Instr>, n: nat, i: nat, o: Operand, x: Operand, y: Operand)
    requires i <= |body|
  {
    if Inner(body, i, o) then x == Ref(Image(Arm(body, n + 1, i), o.r)) && y == Ref(Image(Arm(body, n + 2, i), o.r))
    else x == y && (x.Ref? ==> x.r !in ArmRegs(n, |body|))
  }

  ghost predicate InstrMatch(body: seq<Instr>, n: nat, i: nat, x: Instr, y: Instr)
    requires i < |body|
  {
    && x.dst == ArmReg(n, 1, i) && y.dst == ArmReg(n, 2, i) && x.op == body[i].op == y.op
    && |x.args| == |body[i].args| == |y.args|
    && forall k :: 0 <= k < |x.args| ==> OperandMatch(body, n, i, body[i].args[k], x.args[k], y.args[k])
  }

  ghost predicate ArmsMatch(body: seq<Instr>, n: nat, a: seq<Instr>, b: seq<Instr>) {
    |a| == |body| == |b| && forall i :: 0 <= i < |body| ==> InstrMatch(body, n, i, a[i], b[i])
  }

  /** Only branches and switches lead to the clones. */
  ghost predicate EnteredByBranches(g: Func, k: Label) {
    forall m :: m in g.blocks && (k in g.blocks[m].term.targets || k + 1 in g.blocks[m].term.targets) ==> MergeSpec.BranchOrSwitch(g.blocks[m].term.kind)
  }

  ghost predicate ClonesAt(g: Func, body: seq<Instr>, n: nat, k: Label) {
    && k in g.blocks && k + 1 in g.blocks && k + 2 in g.blocks
    && g.blocks[k] == Block([], g.blocks[k].body, JumpTo(k + 2))
    && g.blocks[k + 1] == Block([], g.blocks[k + 1].body, JumpTo(k + 2))
    && ArmsMatch(body, n, g.blocks[k].body, g.blocks[k + 1].body)
  }

  ghost predicate TailOf(g: Func, body: seq<Instr>, n: nat, k: Label) {
    && k + 2 in g.blocks && g.blocks[k + 2].phis == TailPhis(body, n, k, |body|)
    && g.blocks[k + 2].body == [] && Avoids(ArmRegs(n, |body|), g.blocks[k + 2].term.uses)
  }

  ghost predicate OthersAvoid(g: Func, d: set<Reg>, k: Label) {
    forall m :: m in g.blocks && (m < k || m > k + 2) ==> BlockAvoids(g.blocks[m], d)
  }

  /** body is distinct, below n, and its debug intrinsics have no operands. */
  ghost predicate BodyOk(body: seq<Instr>, n: nat) {
    && DistinctDsts(body) && BodyBelow(body, n)
    && forall i :: 0 <= i < |body| && body[i].op.dbg ==> body[i].op.ty == Void && body[i].args == []
  }

  /** k and k + 1 are clones of a block with the given body, and k + 2 joins them. */
  ghost predicate ClonePair(g: Func, body: seq<Instr>, n: nat, k: Label) {
    && BodyOk(body, n) && ClonesAt(g, body, n, k) && TailOf(g, body, n, k)
    && OthersAvoid(g, ArmRegs(n, |body|), k) && EnteredByBranches(g, k)
  }

  // ----- Making a pair -----

  lemma {:induction false} SameKeys(body: seq<Instr>, b: nat, c: nat, i: nat)
    requires i <= |body|
    ensures forall r :: r in Arm(body, b, i) <==> r in Arm(body, c, i)
  {
    if i > 0 {
      SameKeys(body, b, c, i - 1);
    }
  }

  lemma RhoOutside(body: seq<Instr>, n: nat)
    ensures Outside(ArmRegs(n, |body|), Arm(body, n + 3, |body|))
  {
    var rho := Arm(body, n + 3, |body|);
    forall r | r in rho
      ensures rho[r] !in ArmRegs(n, |body|)
    {
      var j := ArmKey(body, n + 3, |body|, r);
      JoinIsNoArm(n, |body|, j + 1);
    }
  }

  lemma MadeOperand(body: seq<Instr>, n: nat, i: nat, o: Operand)
    requires i <= |body| && (o.Ref? ==> o.r < n)
    ensures var rho := Arm(body, n + 3, |body|);
      OperandMatch(body, n, i, o, SubOp(rho + Arm(body, n + 1, i), o), SubOp(rho + Arm(body, n + 2, i), o))
  {
    SameKeys(body, 0, n + 1, i);
    SameKeys(body, 0, n + 2, i);
    RhoOutside(body, n);
  }

  lemma MadeArms(body: seq<Instr>, n: nat)
    requires BodyBelow(body, n)
    ensures var rho := Arm(body, n + 3, |body|);
      ArmsMatch(body, n, ArmBody(body, n + 1, rho, |body|), ArmBody(body, n + 2, rho, |body|))
  {
    var rho := Arm(body, n + 3, |body|);
    var a, b := ArmBody(body, n + 1, rho, |body|), ArmBody(body, n + 2, rho, |body|);
    forall i | 0 <= i < |body|
      ensures InstrMatch(body, n, i, a[i], b[i])
    {
      ArmBodyAt(body, n + 1, rho, |body|, i);
      ArmBodyAt(body, n + 2, rho, |body|, i);
      assert OperandsBelow(body[i].args, n);
      forall t | 0 <= t < |body[i].args|
        ensures OperandMatch(body, n, i, body[i].args[t], a[i].args[t], b[i].args[t])
      {
        MadeOperand(body, n, i, body[i].args[t]);
      }
    }
  }

  lemma BelowBlockAvoids(b: Block, n: nat, len: nat)
    requires BlockBelow(b, n)
    ensures BlockAvoids(b, ArmRegs(n, len))
  {
    forall i | 0 <= i < |b.body|
      ensures Avoids(ArmRegs(n, len), b.body[i].args)
    {
      assert OperandsBelow(b.body[i].args, n);
    }
    forall i | 0 <= i < |b.phis|
      ensures IncomingAvoids(ArmRegs(n, len), b.phis[i].incoming)
    {
      assert IncomingBelow(b.phis[i].incoming, n);
    }
  }

  lemma ReadyBelow(f: Func, n: nat, k: nat, m: Label)
    requires Ready(f, n, k) && m in f.blocks
    ensures BlockBelow(f.blocks[m], n)
  {
    assert BlockReady(f, f.blocks[m], n);
  }

  lemma OtherBlockAvoids(d: set<Reg>, f: Func, l: Label, n: nat, k: nat, m: Label)
    requires l in f.blocks && m in f.blocks && BlockAvoids(f.blocks[m], d) && Outside(d, Rho(f, l, n))
    ensures BlockAvoids(NewOther(f, l, n, k, m), d)
  {
    RelabelAvoids(d, f, l, k + 2, m);
    SubBlockAvoids(d, Rho(f, l, n), OtherBlock(f, l, k, m));
  }

  lemma HeadAvoids(d: set<Reg>, f: Func, l: Label, ctx: Operand, n: nat, k: nat)
    requires l in f.blocks && BlockAvoids(f.blocks[l], d) && Outside(d, Rho(f, l, n)) && (ctx.Ref? ==> ctx.r !in d) && n !in d
    ensures BlockAvoids(NewHead(f, l, ctx, n, k), d)
  {
    RelabelAvoids(d, f, l, k + 2, l);
    SubBlockAvoids(d, Rho(f, l, n), HeadBlock(PhisAfterSplit(f, l, k + 2, l), ctx, n, k));
  }

  lemma MadeOthers(f: Func, l: Label, ctx: Operand, n: nat, k: nat, m: Label)
    requires Ready(f, n, k) && l in f.blocks && (ctx.Ref? ==> ctx.r < n) && m in f.blocks
    ensures BlockAvoids(CloneBlock(f, l, ctx, n, k, m), ArmRegs(n, |f.blocks[l].body|))
  {
    var d := ArmRegs(n, |f.blocks[l].body|);
    assert m < k by { assert LabelsBelow(f, k); }
    ReadyBelow(f, n, k, m);
    BelowBlockAvoids(f.blocks[m], n, |f.blocks[l].body|);
    RhoOutside(f.blocks[l].body, n);
    if m == l {
      HeadAvoids(d, f, l, ctx, n, k);
    } else {
      OtherBlockAvoids(d, f, l, n, k, m);
    }
  }

  lemma MadeTail(f: Func, l: Label, n: nat, k: nat)
    requires Ready(f, n, k) && l in f.blocks
    ensures Avoids(ArmRegs(n, |f.blocks[l].body|), NewTail(f, l, n, k).term.uses)
  {
    ReadyBelow(f, n, k, l);
    BelowBlockAvoids(f.blocks[l], n, |f.blocks[l].body|);
    RhoOutside(f.blocks[l].body, n);
    SubAvoids(ArmRegs(n, |f.blocks[l].body|), Rho(f, l, n), f.blocks[l].term.uses);
  }

  lemma MadeBody(f: Func, l: Label, n: nat, k: nat)
    requires Ready(f, n, k) && l in f.blocks
    ensures BodyOk(f.blocks[l].body, n)
  {
    BodyDistinct(f, l);
    assert BlockReady(f, f.blocks[l], n);
  }

  lemma MadeEdges(f: Func, l: Label, ctx: Operand, n: nat, k: nat)
    requires Ready(f, n, k) && l in f.blocks
    ensures EnteredByBranches(Clone(f, l, ctx, n, k), k)
  {
    var g := Clone(f, l, ctx, n, k);
    assert LabelsBelow(f, k);
    forall m | m in f.blocks
      ensures forall t :: t in f.blocks[m].term.targets ==> t < k
    {
      assert BlockReady(f, f.blocks[m], n);
    }
    forall m | m in g.blocks && (k in g.blocks[m].term.targets || k + 1 in g.blocks[m].term.targets)
      ensures MergeSpec.BranchOrSwitch(g.blocks[m].term.kind)
    {
      CloneHas(f, l, ctx, n, k, m);
      CloneEdges(f, l, ctx, n, k, m, k);
      CloneEdges(f, l, ctx, n, k, m, k + 1);
    }
  }

  /** Cloning a block makes a pair. */
  lemma CloneMakesPair(f: Func, l: Label, ctx: Operand, n: nat, k: nat)
    requires Ready(f, n, k) && l in f.blocks && (ctx.Ref? ==> ctx.r < n)
    ensures ClonePair(Clone(f, l, ctx, n, k), f.blocks[l].body, n, k)
  {
    var g, body := Clone(f, l, ctx, n, k), f.blocks[l].body;
    assert LabelsBelow(f, k);
    CloneHas(f, l, ctx, n, k, k);
    CloneHas(f, l, ctx, n, k, k + 1);
    CloneHas(f, l, ctx, n, k, k + 2);
    MadeBody(f, l, n, k);
    MadeArms(body, n);
    MadeTail(f, l, n, k);
    MadeEdges(f, l, ctx, n, k);
    forall m | m in g.blocks && (m < k || m > k + 2)
      ensures BlockAvoids(g.blocks[m], ArmRegs(n, |body|))
    {
      CloneHas(f, l, ctx, n, k, m);
      MadeOthers(f, l, ctx, n, k, m);
    }
  }

  // ----- Later clones keep a pair -----

  /** What a later call of cloneBB brings: it clones a block outside the pair into new blocks, with new
      registers, on a condition that is no clone's value. */
  ghost predicate LaterClone(f: Func, body: seq<Instr>, n: nat, k: Label, l: Label, ctx: Operand, n': nat, k': Label) {
    && Ready(f, n', k') && l in f.blocks && (l < k || l > k + 2) && k + 2 < k' && n + 3 * |body| < n'
    && (ctx.Ref? ==> ctx.r < n' && ctx.r !in ArmRegs(n, |body|))
  }

  /** The later clone replaces no register of the pair, and brings in none. */
  lemma LaterRho(f: Func, body: seq<Instr>, n: nat, k: Label, l: Label, ctx: Operand, n': nat, k': Label)
    requires ClonePair(f, body, n, k) && LaterClone(f, body, n, k, l, ctx, n', k')
    ensures Outside(ArmRegs(n, |body|), Rho(f, l, n'))
    ensures forall r :: r in ArmRegs(n, |body|) ==> r !in Rho(f, l, n')
  {
    RhoIs(f, l, n', k');
    forall r | r in ArmRegs(n, |body|)
      ensures r !in Rho(f, l, n')
    {
      var e, j := ArmRegIs(n, |body|, r);
      assert InstrMatch(body, n, j, f.blocks[k].body[j], f.blocks[k + 1].body[j]);
      assert f.blocks[k].body[j].dst !in Rho(f, l, n') && f.blocks[k + 1].body[j].dst !in Rho(f, l, n');
    }
  }

  lemma LaterOperand(body: seq<Instr>, n: nat, i: nat, o: Operand, x: Operand, y: Operand, m: map<Reg, Reg>)
    requires i < |body| && OperandMatch(body, n, i, o, x, y)
    requires Outside(ArmRegs(n, |body|), m) && forall r :: r in ArmRegs(n, |body|) ==> r !in m
    ensures OperandMatch(body, n, i, o, SubOp(m, x), SubOp(m, y))
  {
    if Inner(body, i, o) {
      var j := ArmKey(body, 0, i, o.r);
      SameKeys(body, 0, n + 1, i);
      SameKeys(body, 0, n + 2, i);
      ArmValue(body, n + 1, i, o.r, j);
      ArmValue(body, n + 2, i, o.r, j);
      ArmRegIn(n, |body|, 1, j);
      ArmRegIn(n, |body|, 2, j);
    }
  }

  /** The entry for r does not depend on the base but for the offset. */
  lemma {:induction false} ArmValue(body: seq<Instr>, base: nat, i: nat, r: Reg, j: nat)
    requires i <= |body| && r in Arm(body, 0, i) && Arm(body, 0, i)[r] == 3 * j
    ensures r in Arm(body, base, i) && Arm(body, base, i)[r] == base + 3 * j
  {
    if body[i - 1].op.ty == Void || body[i - 1].dst != r {
      ArmValue(body, base, i - 1, r, j);
    }
  }

  lemma LaterArms(body: seq<Instr>, n: nat, a: seq<Instr>, b: seq<Instr>, m: map<Reg, Reg>)
    requires ArmsMatch(body, n, a, b)
    requires Outside(ArmRegs(n, |body|), m) && forall r :: r in ArmRegs(n, |body|) ==> r !in m
    ensures ArmsMatch(body, n, SubBody(m, a), SubBody(m, b))
  {
    forall i | 0 <= i < |body|
      ensures InstrMatch(body, n, i, SubBody(m, a)[i], SubBody(m, b)[i])
    {
      assert InstrMatch(body, n, i, a[i], b[i]);
      forall t | 0 <= t < |a[i].args|
        ensures OperandMatch(body, n, i, body[i].args[t], SubOp(m, a[i].args[t]), SubOp(m, b[i].args[t]))
      {
        LaterOperand(body, n, i, body[i].args[t], a[i].args[t], b[i].args[t], m);
      }
    }
  }

  /** The joining PHIs do not change: neither their predecessors nor their operands are renamed. */
  lemma LaterPhis(body: seq<Instr>, n: nat, k: Label, m: map<Reg, Reg>, l: Label, t: Label)
    requires (l < k || l > k + 2) && forall r :: r in ArmRegs(n, |body|) ==> r !in m
    ensures SubPhis(m, TailPhis(body, n, k, |body|)) == TailPhis(body, n, k, |body|)
    ensures SubPhis(m, RelabelPhis(TailPhis(body, n, k, |body|), l, t)) == TailPhis(body, n, k, |body|)
  {
    var phis := TailPhis(body, n, k, |body|);
    forall i | 0 <= i < |phis|
      ensures SubIncoming(m, phis[i].incoming) == phis[i].incoming
      ensures Relabel(phis[i].incoming, l, t) == phis[i].incoming
    {
      var j := TailPhiAt(body, n, k, |body|, i);
      ArmRegIn(n, |body|, 1, j);
      ArmRegIn(n, |body|, 2, j);
    }
    assert SubPhis(m, phis) == phis && RelabelPhis(phis, l, t) == phis;
  }

  lemma NoArgsJump(m: map<Reg, Reg>, t: Label)
    ensures SubTerm(m, JumpTo(t)) == JumpTo(t)
  {
    assert SubOps(m, []) == [];
  }

  lemma ArmLater(f: Func, l: Label, ctx: Operand, n': nat, k': Label, c: Label, t: Label)
    requires l in f.blocks && LabelsBelow(f, k') && c in f.blocks && c != l && f.blocks[c] == Block([], f.blocks[c].body, JumpTo(t))
    ensures c in Clone(f, l, ctx, n', k').blocks
    ensures Clone(f, l, ctx, n', k').blocks[c] == Block([], SubBody(Rho(f, l, n'), f.blocks[c].body), JumpTo(t))
  {
    CloneHas(f, l, ctx, n', k', c);
    NoArgsJump(Rho(f, l, n'), t);
    assert PhisAfterSplit(f, l, k' + 2, c) == [];
    assert SubPhis(Rho(f, l, n'), []) == [];
  }

  lemma TailBlockLater(f: Func, body: seq<Instr>, n: nat, k: Label, l: Label, ctx: Operand, n': nat, k': Label)
    requires l in f.blocks && LabelsBelow(f, k') && k + 2 in f.blocks && (l < k || l > k + 2)
    requires f.blocks[k + 2].phis == TailPhis(body, n, k, |body|) && f.blocks[k + 2].body == []
    requires forall r :: r in ArmRegs(n, |body|) ==> r !in Rho(f, l, n')
    ensures k + 2 in Clone(f, l, ctx, n', k').blocks
    ensures Clone(f, l, ctx, n', k').blocks[k + 2] ==
      Block(TailPhis(body, n, k, |body|), [], SubTerm(Rho(f, l, n'), f.blocks[k + 2].term))
  {
    CloneHas(f, l, ctx, n', k', k + 2);
    LaterPhis(body, n, k, Rho(f, l, n'), l, k' + 2);
    assert SubBody(Rho(f, l, n'), []) == [];
  }

  lemma TailLater(f: Func, body: seq<Instr>, n: nat, k: Label, l: Label, ctx: Operand, n': nat, k': Label)
    requires ClonePair(f, body, n, k) && LaterClone(f, body, n, k, l, ctx, n', k')
    ensures TailOf(Clone(f, l, ctx, n', k'), body, n, k)
  {
    LaterRho(f, body, n, k, l, ctx, n', k');
    TailBlockLater(f, body, n, k, l, ctx, n', k');
    SubAvoids(ArmRegs(n, |body|), Rho(f, l, n'), f.blocks[k + 2].term.uses);
  }

  lemma ClonesOf(g: Func, body: seq<Instr>, n: nat, k: Label, a: seq<Instr>, b: seq<Instr>)
    requires k in g.blocks && k + 1 in g.blocks && k + 2 in g.blocks && ArmsMatch(body, n, a, b)
    requires g.blocks[k] == Block([], a, JumpTo(k + 2)) && g.blocks[k + 1] == Block([], b, JumpTo(k + 2))
    ensures ClonesAt(g, body, n, k)
  {
  }

  lemma BothArmsLater(f: Func, k: Label, l: Label, ctx: Operand, n': nat, k': Label, a: seq<Instr>, b: seq<Instr>)
    requires l in f.blocks && LabelsBelow(f, k') && (l < k || l > k + 2) && k in f.blocks && k + 1 in f.blocks && k + 2 in f.blocks
    requires f.blocks[k] == Block([], a, JumpTo(k + 2)) && f.blocks[k + 1] == Block([], b, JumpTo(k + 2))
    ensures var g, rho := Clone(f, l, ctx, n', k'), Rho(f, l, n');
      && k in g.blocks && k + 1 in g.blocks && k + 2 in g.blocks
      && g.blocks[k] == Block([], SubBody(rho, a), JumpTo(k + 2)) && g.blocks[k + 1] == Block([], SubBody(rho, b), JumpTo(k + 2))
  {
    ArmLater(f, l, ctx, n', k', k, k + 2);
    ArmLater(f, l, ctx, n', k', k + 1, k + 2);
    CloneHas(f, l, ctx, n', k', k + 2);
  }

  lemma ClonesLater(f: Func, body: seq<Instr>, n: nat, k: Label, l: Label, ctx: Operand, n': nat, k': Label)
    requires ClonesAt(f, body, n, k) && l in f.blocks && LabelsBelow(f, k') && (l < k || l > k + 2)
    requires Outside(ArmRegs(n, |body|), Rho(f, l, n')) && forall r :: r in ArmRegs(n, |body|) ==> r !in Rho(f, l, n')
    ensures ClonesAt(Clone(f, l, ctx, n', k'), body, n, k)
  {
    var rho, a, b := Rho(f, l, n'), f.blocks[k].body, f.blocks[k + 1].body;
    BothArmsLater(f, k, l, ctx, n', k', a, b);
    LaterArms(body, n, a, b, rho);
    ClonesOf(Clone(f, l, ctx, n', k'), body, n, k, SubBody(rho, a), SubBody(rho, b));
  }

  lemma NewArmAvoids(f: Func, d: set<Reg>, l: Label, n': nat, k': Label, a: nat)
    requires l in f.blocks && BlockAvoids(f.blocks[l], d) && Outside(d, Rho(f, l, n'))
    requires (forall r :: r in d ==> r < n') && BodyBelow(f.blocks[l].body, n')
    ensures BlockAvoids(NewArm(f, l, n', k', a), d)
  {
    var body, base, rho := f.blocks[l].body, n' + 1 + a, Rho(f, l, n');
    var b := ArmBody(body, base, rho, |body|);
    forall i | 0 <= i < |body|
      ensures Avoids(d, b[i].args)
    {
      ArmBodyAt(body, base, rho, |body|, i);
      ArmFresh(body, base, i, n');
      SubAvoids(d, rho + Arm(body, base, i), body[i].args);
    }
  }

  lemma NewTailAvoids(f: Func, d: set<Reg>, l: Label, n': nat, k': Label)
    requires l in f.blocks && BlockAvoids(f.blocks[l], d) && Outside(d, Rho(f, l, n')) && forall r :: r in d ==> r < n'
    ensures BlockAvoids(NewTail(f, l, n', k'), d)
  {
    var body := f.blocks[l].body;
    SubAvoids(d, Rho(f, l, n'), f.blocks[l].term.uses);
    forall i | 0 <= i < |NewTail(f, l, n', k').phis|
      ensures IncomingAvoids(d, NewTail(f, l, n', k').phis[i].incoming)
    {
      var j := TailPhiAt(body, n', k', |body|, i);
    }
  }

  lemma OthersLater(f: Func, body: seq<Instr>, n: nat, k: Label, l: Label, ctx: Operand, n': nat, k': Label, m: Label)
    requires ClonePair(f, body, n, k) && LaterClone(f, body, n, k, l, ctx, n', k')
    requires (m in f.blocks || k' <= m <= k' + 2) && (m < k || m > k + 2)
    ensures BlockAvoids(CloneBlock(f, l, ctx, n', k', m), ArmRegs(n, |body|))
  {
    var d := ArmRegs(n, |body|);
    assert LabelsBelow(f, k');
    LaterRho(f, body, n, k, l, ctx, n', k');
    ReadyBelow(f, n', k', l);
    assert BlockAvoids(f.blocks[l], d);
    if m == k' + 2 {
      NewTailAvoids(f, d, l, n', k');
    } else if m == k' || m == k' + 1 {
      NewArmAvoids(f, d, l, n', k', m - k');
    } else if m == l {
      HeadAvoids(d, f, l, ctx, n', k');
    } else {
      OtherBlockAvoids(d, f, l, n', k', m);
    }
  }

  lemma EdgesLater(f: Func, body: seq<Instr>, n: nat, k: Label, l: Label, ctx: Operand, n': nat, k': Label)
    requires ClonePair(f, body, n, k) && LaterClone(f, body, n, k, l, ctx, n', k')
    ensures EnteredByBranches(Clone(f, l, ctx, n', k'), k)
  {
    var g := Clone(f, l, ctx, n', k');
    assert LabelsBelow(f, k');
    forall m | m in g.blocks && (k in g.blocks[m].term.targets || k + 1 in g.blocks[m].term.targets)
      ensures MergeSpec.BranchOrSwitch(g.blocks[m].term.kind)
    {
      CloneHas(f, l, ctx, n', k', m);
      CloneEdges(f, l, ctx, n', k', m, k);
      CloneEdges(f, l, ctx, n', k', m, k + 1);
    }
  }

  lemma AllOthersLater(f: Func, body: seq<Instr>, n: nat, k: Label, l: Label, ctx: Operand, n': nat, k': Label)
    requires ClonePair(f, body, n, k) && LaterClone(f, body, n, k, l, ctx, n', k')
    ensures OthersAvoid(Clone(f, l, ctx, n', k'), ArmRegs(n, |body|), k)
  {
    var g := Clone(f, l, ctx, n', k');
    forall m | m in g.blocks && (m < k || m > k + 2)
      ensures BlockAvoids(g.blocks[m], ArmRegs(n, |body|))
    {
      CloneHas(f, l, ctx, n', k', m);
      OthersLater(f, body, n, k, l, ctx, n', k', m);
    }
  }

  lemma PairOf(g: Func, body: seq<Instr>, n: nat, k: Label)
    requires BodyOk(body, n) && ClonesAt(g, body, n, k) && TailOf(g, body, n, k)
    requires OthersAvoid(g, ArmRegs(n, |body|), k) && EnteredByBranches(g, k)
    ensures ClonePair(g, body, n, k)
  {
  }

  /** A later clone of another block keeps the pair. */
  lemma LaterKeepsPair(f: Func, body: seq<Instr>, n: nat, k: Label, l: Label, ctx: Operand, n': nat, k': Label)
    requires ClonePair(f, body, n, k) && LaterClone(f, body, n, k, l, ctx, n', k')
    ensures ClonePair(Clone(f, l, ctx, n', k'), body, n, k)
  {
    LaterRho(f, body, n, k, l, ctx, n', k');
    ClonesLater(f, body, n, k, l, ctx, n', k');
    TailLater(f, body, n, k, l, ctx, n', k');
    AllOthersLater(f, body, n, k, l, ctx, n', k');
    EdgesLater(f, body, n, k, l, ctx, n', k');
    PairOf(Clone(f, l, ctx, n', k'), body, n, k);
  }
}
