/** The DuplicateBB pass: the in-place code, proved against Clone and CloneAll. */
module DuplicateBB {
  import opened IR
  import opened FunctionState
  import opened Paths
  import opened RIV
  import opened Renaming
  import opened DuplicateSpec
  import opened DuplicateSound
  import opened DuplicateShape
  import opened DuplicateSteps
  import opened DuplicateRun

  /** The blocks after the successors' PHIs of bb were relabelled. */
  function Relabelled(f: Func, bb: Label, t: Label): map<Label, Block>
    requires bb in f.blocks
  {
    map m | m in f.blocks :: f.blocks[m].(phis := PhisAfterSplit(f, bb, t, m))
  }

  function SplitBlocks(f: Func, bb: Label, ctx: Operand, n: nat, k: nat): map<Label, Block>
    requires bb in f.blocks
  {
    Relabelled(f, bb, k + 2)
      [bb := HeadBlock(PhisAfterSplit(f, bb, k + 2, bb), ctx, n, k)]
      [k := Block([], [], JumpTo(k + 2))]
      [k + 1 := Block([], [], JumpTo(k + 2))]
      [k + 2 := Block([], f.blocks[bb].body, f.blocks[bb].term)]
  }

  lemma StartBlock(f: Func, l: Label, ctx: Operand, n: nat, k: nat, m: Label)
    requires l in f.blocks && LabelsBelow(f, k)
    ensures m in SplitBlocks(f, l, ctx, n, k) <==> m in f.blocks || k <= m <= k + 2
    ensures m in SplitBlocks(f, l, ctx, n, k) ==> SplitBlocks(f, l, ctx, n, k)[m] == BlockAt(f, l, ctx, n, k, 0, m)
  {
    if m == k + 2 {
      var b := Block([], f.blocks[l].body, f.blocks[l].term);
      SubNothing(b);
      assert [] + f.blocks[l].body[0..] == f.blocks[l].body;
    } else if m in f.blocks {
      SubNothing(Plain(f, l, ctx, n, k, m));
    }
  }

  lemma SplitIsStart(f: Func, l: Label, ctx: Operand, n: nat, k: nat)
    requires l in f.blocks && LabelsBelow(f, k)
    ensures Func(InsertAfter(f.order, l, [k, k + 1, k + 2]), SplitBlocks(f, l, ctx, n, k)) == CloneAt(f, l, ctx, n, k, 0)
  {
    var g, bs := CloneAt(f, l, ctx, n, k, 0), SplitBlocks(f, l, ctx, n, k);
    forall m
      ensures m in bs <==> m in g.blocks
      ensures m in g.blocks ==> bs[m] == g.blocks[m]
    {
      AtHas(f, l, ctx, n, k, 0, m);
      StartBlock(f, l, ctx, n, k, m);
    }
    assert bs == g.blocks;
  }

  /** The PHI entries of bb's successors for the edge from bb become entries for the edge from t. */
  method RelabelSuccessors(ir: FunctionIR, bb: Label, t: Label)
    requires bb in ir.blocks && forall s :: s in ir.blocks[bb].term.targets ==> s in ir.blocks
    modifies ir`blocks
    ensures ir.blocks == Relabelled(old(ir.Value()), bb, t)
  {
    ghost var f := ir.Value();
    var succs := set s | s in ir.blocks[bb].term.targets;
    while succs != {}
      invariant ir.blocks.Keys == f.blocks.Keys
      invariant forall s :: s in succs ==> s in f.blocks[bb].term.targets && s in f.blocks
      invariant forall m :: m in f.blocks ==>
        ir.blocks[m] == if m in succs then f.blocks[m] else f.blocks[m].(phis := PhisAfterSplit(f, bb, t, m))
      decreases succs
    {
      var s :| s in succs;
      succs := succs - {s};
      ir.blocks := ir.blocks[s := ir.blocks[s].(phis := RelabelPhis(ir.blocks[s].phis, bb, t))];
    }
    assert ir.blocks == Relabelled(f, bb, t);
  }

  /** Splits block bb after its PHIs and puts a condition and two empty arms in between. */
  method SplitBlockAndInsertIfThenElse(ir: FunctionIR, bb: Label, ctx: Operand, n: nat, k: nat)
    requires bb in ir.blocks && LabelsBelow(ir.Value(), k)
    requires forall t :: t in ir.blocks[bb].term.targets ==> t in ir.blocks
    modifies ir
    ensures ir.Value() == CloneAt(old(ir.Value()), bb, ctx, n, k, 0)
  {
    ghost var f := ir.Value();
    SplitIsStart(f, bb, ctx, n, k);
    var tail := k + 2;
    var moved := ir.blocks[bb].body;
    var term := ir.blocks[bb].term;
    RelabelSuccessors(ir, bb, tail);
    ir.blocks := ir.blocks[bb := HeadBlock(ir.blocks[bb].phis, ctx, n, k)];
    ir.blocks := ir.blocks[k := Block([], [], JumpTo(tail))];
    ir.blocks := ir.blocks[k + 1 := Block([], [], JumpTo(tail))];
    ir.blocks := ir.blocks[tail := Block([], moved, term)];
    ir.order := InsertAfter(ir.order, bb, [k, k + 1, tail]);
  }

  /** Every use of r becomes a use of p. */
  method ReplaceAllUsesWith(ir: FunctionIR, r: Reg, p: Reg)
    modifies ir`blocks
    ensures ir.Value() == SubFunc(map[r := p], old(ir.Value()))
  {
    ghost var f := ir.Value();
    var left := ir.blocks.Keys;
    while left != {}
      invariant ir.blocks.Keys == f.blocks.Keys && left <= f.blocks.Keys
      invariant forall l :: l in f.blocks ==> ir.blocks[l] == if l in left then f.blocks[l] else SubBlock(map[r := p], f.blocks[l])
      decreases left
    {
      var l :| l in left;
      left := left - {l};
      ir.blocks := ir.blocks[l := SubBlock(map[r := p], ir.blocks[l])];
    }
    assert ir.blocks == SubFunc(map[r := p], f).blocks;
  }

  /** A block whose instruction at position `at` makes room for a PHI. */
  function PhiFor(t: Block, at: nat, phi: Phi): Block
    requires at < |t.body|
  {
    Block(t.phis + [phi], t.body[..at] + t.body[at + 1..], t.term)
  }

  lemma UpdateTwice<K, V>(m: map<K, V>, k: K, v: V, v': V)
    ensures m[k := v][k := v'] == m[k := v']
  {
  }

  lemma Swapped(f: Func, l: Label, ctx: Operand, n: nat, k: nat, i: nat, v: Func, x: Phi)
    requires l in f.blocks && i < |f.blocks[l].body|
    requires v == WithClones(f, l, ctx, n, k, i, CloneOf(f, l, n, 0, i), CloneOf(f, l, n, 1, i), TailAt(f, l, n, k, i))
    requires x == JoinPhi(f.blocks[l].body[i].op.ty, n, k, i + 1)
    ensures k + 2 in v.blocks && v.blocks[k + 2] == TailAt(f, l, n, k, i) && |Kept(f.blocks[l].body, i)| < |v.blocks[k + 2].body|
    ensures Func(v.order, v.blocks[k + 2 := PhiFor(v.blocks[k + 2], |Kept(f.blocks[l].body, i)|, x)])
      == WithClones(f, l, ctx, n, k, i, CloneOf(f, l, n, 0, i), CloneOf(f, l, n, 1, i), TailSwapped(f, l, n, k, i))
  {
    TailAtHead(f, l, n, k, i);
    var a, b := ArmAt(f, l, n, k, 0, i), ArmAt(f, l, n, k, 1, i);
    var bs := CloneAt(f, l, ctx, n, k, i).blocks[k := a.(body := a.body + [CloneOf(f, l, n, 0, i)])][k + 1 := b.(body := b.body + [CloneOf(f, l, n, 1, i)])];
    UpdateTwice(bs, k + 2, TailAt(f, l, n, k, i), TailSwapped(f, l, n, k, i));
  }

  lemma NextAs(f: Func, l: Label, ctx: Operand, n: nat, k: nat, i: nat, d: Reg, p: Reg)
    requires l in f.blocks && i < |f.blocks[l].body| && LabelsBelow(f, k) && f.blocks[l].body[i].op.ty != Void
    requires DistinctDsts(f.blocks[l].body) && BodyBelow(f.blocks[l].body, n)
    requires d == f.blocks[l].body[i].dst && p == n + 3 + 3 * i
    ensures SubFunc(map[d := p],
                    WithClones(f, l, ctx, n, k, i, CloneOf(f, l, n, 0, i), CloneOf(f, l, n, 1, i), TailSwapped(f, l, n, k, i)))
      == CloneAt(f, l, ctx, n, k, i + 1)
  {
    NextValue(f, l, ctx, n, k, i);
    assert map[d := p] == map[f.blocks[l].body[i].dst := n + 3 + 3 * i];
  }

  lemma SwappedNext(f: Func, l: Label, ctx: Operand, n: nat, k: nat, i: nat, v: Func, x: Phi, d: Reg) returns (h: Func)
    requires CanClone(f, l, n, k) && i < |f.blocks[l].body| && f.blocks[l].body[i].op.ty != Void
    requires v == WithClones(f, l, ctx, n, k, i, CloneOf(f, l, n, 0, i), CloneOf(f, l, n, 1, i), TailAt(f, l, n, k, i))
    requires x == JoinPhi(f.blocks[l].body[i].op.ty, n, k, i + 1) && d == f.blocks[l].body[i].dst
    ensures k + 2 in v.blocks && |Kept(f.blocks[l].body, i)| < |v.blocks[k + 2].body|
    ensures h == Func(v.order, v.blocks[k + 2 := PhiFor(v.blocks[k + 2], |Kept(f.blocks[l].body, i)|, x)])
    ensures x.dst == n + 3 + 3 * i && SubFunc(map[d := x.dst], h) == CloneAt(f, l, ctx, n, k, i + 1)
  {
    Swapped(f, l, ctx, n, k, i, v, x);
    NextAs(f, l, ctx, n, k, i, d, x.dst);
    h := Func(v.order, v.blocks[k + 2 := PhiFor(v.blocks[k + 2], |Kept(f.blocks[l].body, i)|, x)]);
  }

  /** What cloneBB keeps while it walks the tail. */
  ghost predicate ClonePoint(f: Func, l: Label, ctx: Operand, n: nat, k: nat, i: nat, g: Func, kept: nat,
                             thenVMap: map<Reg, Reg>, elseVMap: map<Reg, Reg>, tailVMap: map<Reg, Reg>)
    requires l in f.blocks
  {
    && i <= |f.blocks[l].body| && g == CloneAt(f, l, ctx, n, k, i)
    && kept == |Kept(f.blocks[l].body, i)|
    && ArmMap(thenVMap, f.blocks[l].body, n, n + 1, i)
    && ArmMap(elseVMap, f.blocks[l].body, n, n + 2, i)
    && (forall r :: r in tailVMap ==> tailVMap[r] == r)
  }

  ghost predicate CanClone(f: Func, l: Label, n: nat, k: nat) {
    && l in f.blocks && Shape(f) && LabelsBelow(f, k)
    && DistinctDsts(f.blocks[l].body) && BodyBelow(f.blocks[l].body, n) && ReadsValues(f.blocks[l].body)
    && forall t :: t in f.blocks[l].term.targets ==> t in f.blocks
  }

  lemma ReadyCanClone(f: Func, l: Label, n: nat, k: nat)
    requires Ready(f, n, k) && RefsDefined(f) && l in f.blocks
    ensures CanClone(f, l, n, k)
  {
    var b := f.blocks[l];
    assert BlockReady(f, b, n);
    BodyDistinct(f, l);
    forall i, j | 0 <= i < |b.body| && 0 <= j < |b.body[i].args| && b.body[i].args[j].Ref?
      ensures !NoValue(b.body, b.body[i].args[j].r)
    {
      var r := b.body[i].args[j].r;
      assert UsedAt(f, Site(l, |b.phis| + i, j), r);
      var m, h: nat :| DefinedAt(f, m, h, r);
      if NoValue(b.body, r) {
        var q :| 0 <= q < |b.body| && b.body[q].dst == r && b.body[q].op.ty == Void;
        OneDef(f, m, h, l, |b.phis| + q);
      }
    }
  }

  lemma PointVoid(f: Func, l: Label, ctx: Operand, n: nat, k: nat, i: nat, kept: nat,
                  thenVMap: map<Reg, Reg>, elseVMap: map<Reg, Reg>, tailVMap: map<Reg, Reg>)
    requires CanClone(f, l, n, k) && i < |f.blocks[l].body| && f.blocks[l].body[i].op.ty == Void
    requires ClonePoint(f, l, ctx, n, k, i, CloneAt(f, l, ctx, n, k, i), kept, thenVMap, elseVMap, tailVMap)
    ensures ClonePoint(f, l, ctx, n, k, i + 1,
      WithClones(f, l, ctx, n, k, i, CloneOf(f, l, n, 0, i), CloneOf(f, l, n, 1, i), TailAt(f, l, n, k, i)), kept + 1,
      thenVMap[f.blocks[l].body[i].dst := n + 1 + 3 * i], elseVMap[f.blocks[l].body[i].dst := n + 2 + 3 * i], tailVMap)
  {
    NextVoid(f, l, ctx, n, k, i);
    TailAtVoid(f, l, n, k, i);
    ArmMapVoid(thenVMap, f.blocks[l].body, n, n + 1, i);
    ArmMapVoid(elseVMap, f.blocks[l].body, n, n + 2, i);
  }

  lemma KeptValue(body: seq<Instr>, i: nat)
    requires i < |body| && body[i].op.ty != Void
    ensures Kept(body, i + 1) == Kept(body, i)
  {
  }

  /** The values maps after one value-producing instruction; the function is left out. */
  lemma MapsValue(body: seq<Instr>, n: nat, i: nat, thenVMap: map<Reg, Reg>, elseVMap: map<Reg, Reg>)
    requires i < |body| && body[i].op.ty != Void && DistinctDsts(body) && BodyBelow(body, n)
    requires ArmMap(thenVMap, body, n, n + 1, i) && ArmMap(elseVMap, body, n, n + 2, i)
    ensures ArmMap(Follow(thenVMap[body[i].dst := n + 1 + 3 * i], body[i].dst, n + 3 + 3 * i), body, n, n + 1, i + 1)
    ensures ArmMap(Follow(elseVMap[body[i].dst := n + 2 + 3 * i], body[i].dst, n + 3 + 3 * i), body, n, n + 2, i + 1)
  {
    ArmMapValue(thenVMap, body, n, n + 1, i);
    ArmMapValue(elseVMap, body, n, n + 2, i);
  }

  lemma PointOf(f: Func, l: Label, ctx: Operand, n: nat, k: nat, i: nat, g: Func, kept: nat,
                thenVMap: map<Reg, Reg>, elseVMap: map<Reg, Reg>, tailVMap: map<Reg, Reg>)
    requires l in f.blocks && i <= |f.blocks[l].body| && g == CloneAt(f, l, ctx, n, k, i)
    requires kept == |Kept(f.blocks[l].body, i)|
    requires ArmMap(thenVMap, f.blocks[l].body, n, n + 1, i)
    requires ArmMap(elseVMap, f.blocks[l].body, n, n + 2, i)
    requires forall r :: r in tailVMap ==> tailVMap[r] == r
    ensures ClonePoint(f, l, ctx, n, k, i, g, kept, thenVMap, elseVMap, tailVMap)
  {
  }

  lemma RemapStep(remapper: map<Reg, Reg>, body: seq<Instr>, n: nat, i: nat)
    requires i < |body|
    ensures remapper + Arm(body, n + 3, i + 1) ==
      if body[i].op.ty == Void then remapper + Arm(body, n + 3, i)
      else (remapper + Arm(body, n + 3, i))[body[i].dst := n + 3 + 3 * i]
  {
  }

  lemma SameTerm(m: map<Reg, Reg>, t: Term)
    requires forall r :: r in m ==> m[r] == r
    ensures SubTerm(m, t) == t
  {
    assert SubOps(m, t.uses) == t.uses;
  }

  /** The run's state after one call of cloneBB. */
  lemma AfterClone(s: State, n0: nat, ts: Targets, heads: set<Label>, s': State)
    requires RunPoint(s, n0, ts, heads) && ts != [] && TargetsOk(s, ts) && TargetLabels(ts) !! heads
    requires s' == CloneOne(s, ts[0].0, ts[0].1)
    ensures TargetsOk(s', ts[1..]) && CloneAll(s', ts[1..]) == CloneAll(s, ts)
    ensures RunPoint(s', n0, ts[1..], heads + {ts[0].0}) && TargetLabels(ts[1..]) !! heads + {ts[0].0}
  {
    TailFacts(ts, heads);
    TargetsOkTail(s, ts);
    RunAdvances(s, n0, ts, heads);
  }

  lemma PointCanClone(s: State, n0: nat, ts: Targets, heads: set<Label>)
    requires RunPoint(s, n0, ts, heads) && ts != []
    ensures CanClone(s.f, ts[0].0, s.n, s.k)
  {
    ReadyCanClone(s.f, ts[0].0, s.n, s.k);
  }

  class DuplicateBB {
    var duplicateBBCount: nat

    constructor ()
      ensures duplicateBBCount == 0
    {
      duplicateBBCount := 0;
    }

    /** Clones the tail's instruction at position `at` into both arms, its operands remapped. */
    method InsertClones(ir: FunctionIR, ghost f: Func, bb: Label, ghost ctx: Operand, n: nat, k: nat, i: nat, at: nat,
                        thenVMap: map<Reg, Reg>, elseVMap: map<Reg, Reg>)
      returns (instr: Instr)
      requires CanClone(f, bb, n, k) && i < |f.blocks[bb].body| && ir.Value() == CloneAt(f, bb, ctx, n, k, i)
      requires at == |Kept(f.blocks[bb].body, i)|
      requires ArmMap(thenVMap, f.blocks[bb].body, n, n + 1, i) && ArmMap(elseVMap, f.blocks[bb].body, n, n + 2, i)
      modifies ir
      ensures instr.dst == f.blocks[bb].body[i].dst && instr.op == f.blocks[bb].body[i].op
      ensures ir.Value() == WithClones(f, bb, ctx, n, k, i, CloneOf(f, bb, n, 0, i), CloneOf(f, bb, n, 1, i), TailAt(f, bb, n, k, i))
    {
      AtHas(f, bb, ctx, n, k, i, k);
      AtHas(f, bb, ctx, n, k, i, k + 1);
      AtHas(f, bb, ctx, n, k, i, k + 2);
      TailAtHead(f, bb, n, k, i);
      instr := ir.blocks[k + 2].body[at];
      MappedArgs(thenVMap, f.blocks[bb].body, n, n + 1, i);
      MappedArgs(elseVMap, f.blocks[bb].body, n, n + 2, i);
      var thenClone := Instr(n + 1 + 3 * i, instr.op, SubOps(thenVMap, instr.args));
      var elseClone := Instr(n + 2 + 3 * i, instr.op, SubOps(elseVMap, instr.args));
      ir.blocks := ir.blocks[k := ir.blocks[k].(body := ir.blocks[k].body + [thenClone])];
      ir.blocks := ir.blocks[k + 1 := ir.blocks[k + 1].(body := ir.blocks[k + 1].body + [elseClone])];
      assert ir.blocks == WithClones(f, bb, ctx, n, k, i, thenClone, elseClone, TailAt(f, bb, n, k, i)).blocks;
    }

    /** The tail's instruction at position `at` is replaced, there and in all its uses, by the PHI that
        joins its clones. */
    method ReplaceByPhi(ir: FunctionIR, ghost f: Func, bb: Label, ghost ctx: Operand, n: nat, k: nat, i: nat, at: nat, instr: Instr)
      returns (phi: Phi)
      requires CanClone(f, bb, n, k) && i < |f.blocks[bb].body| && at == |Kept(f.blocks[bb].body, i)|
      requires instr.dst == f.blocks[bb].body[i].dst && instr.op == f.blocks[bb].body[i].op && instr.op.ty != Void
      requires ir.Value() == WithClones(f, bb, ctx, n, k, i, CloneOf(f, bb, n, 0, i), CloneOf(f, bb, n, 1, i), TailAt(f, bb, n, k, i))
      modifies ir
      ensures phi.dst == n + 3 + 3 * i && ir.Value() == CloneAt(f, bb, ctx, n, k, i + 1)
    {
      phi := JoinPhi(instr.op.ty, n, k, i + 1);
      ghost var h := SwappedNext(f, bb, ctx, n, k, i, ir.Value(), phi, instr.dst);
      ir.blocks := ir.blocks[k + 2 := PhiFor(ir.blocks[k + 2], at, phi)];
      assert ir.Value() == h;
      ReplaceAllUsesWith(ir, instr.dst, phi.dst);
    }

    /** The clones of a value-producing instruction are joined, and the value maps follow. */
    method JoinClones(ir: FunctionIR, ghost f: Func, bb: Label, ghost ctx: Operand, n: nat, k: nat, i: nat, kept: nat, instr: Instr,
                      thenVMap: map<Reg, Reg>, elseVMap: map<Reg, Reg>, tailVMap: map<Reg, Reg>)
      returns (phi: Phi, thenVMap': map<Reg, Reg>, elseVMap': map<Reg, Reg>, tailVMap': map<Reg, Reg>)
      requires CanClone(f, bb, n, k) && i < |f.blocks[bb].body|
      requires instr.dst == f.blocks[bb].body[i].dst && instr.op == f.blocks[bb].body[i].op && instr.op.ty != Void
      requires ir.Value() == WithClones(f, bb, ctx, n, k, i, CloneOf(f, bb, n, 0, i), CloneOf(f, bb, n, 1, i), TailAt(f, bb, n, k, i))
      requires ClonePoint(f, bb, ctx, n, k, i, CloneAt(f, bb, ctx, n, k, i), kept, thenVMap, elseVMap, tailVMap)
      modifies ir
      ensures phi.dst == n + 3 + 3 * i
      ensures ClonePoint(f, bb, ctx, n, k, i + 1, ir.Value(), kept, thenVMap', elseVMap', tailVMap')
    {
      phi := ReplaceByPhi(ir, f, bb, ctx, n, k, i, kept, instr);
      // The value maps follow the replacement of their keys.
      thenVMap' := Follow(thenVMap[instr.dst := n + 1 + 3 * i], instr.dst, phi.dst);
      elseVMap' := Follow(elseVMap[instr.dst := n + 2 + 3 * i], instr.dst, phi.dst);
      tailVMap' := tailVMap[phi.dst := phi.dst];
      KeptValue(f.blocks[bb].body, i);
      MapsValue(f.blocks[bb].body, n, i, thenVMap, elseVMap);
      PointOf(f, bb, ctx, n, k, i + 1, ir.Value(), kept, thenVMap', elseVMap', tailVMap');
    }

    /** One iteration over the tail: the instruction is cloned into both arms; if it has a value, a PHI
        takes its place. */
    method CloneInstruction(ir: FunctionIR, ghost f: Func, bb: Label, ghost ctx: Operand, n: nat, k: nat, i: nat, kept: nat,
                            thenVMap: map<Reg, Reg>, elseVMap: map<Reg, Reg>, tailVMap: map<Reg, Reg>, remapper: map<Reg, Reg>)
      returns (kept': nat, thenVMap': map<Reg, Reg>, elseVMap': map<Reg, Reg>, tailVMap': map<Reg, Reg>, remapper': map<Reg, Reg>)
      requires CanClone(f, bb, n, k) && i < |f.blocks[bb].body|
      requires ClonePoint(f, bb, ctx, n, k, i, ir.Value(), kept, thenVMap, elseVMap, tailVMap)
      modifies ir
      ensures ClonePoint(f, bb, ctx, n, k, i + 1, ir.Value(), kept', thenVMap', elseVMap', tailVMap')
      ensures remapper' == if f.blocks[bb].body[i].op.ty == Void then remapper else remapper[f.blocks[bb].body[i].dst := n + 3 + 3 * i]
    {
      var instr := InsertClones(ir, f, bb, ctx, n, k, i, kept, thenVMap, elseVMap);
      if instr.op.ty == Void {
        // Stays in the tail until the purge.
        PointVoid(f, bb, ctx, n, k, i, kept, thenVMap, elseVMap, tailVMap);
        kept', thenVMap', elseVMap' := kept + 1, thenVMap[instr.dst := n + 1 + 3 * i], elseVMap[instr.dst := n + 2 + 3 * i];
        tailVMap', remapper' := tailVMap, remapper;
      } else {
        var phi;
        phi, thenVMap', elseVMap', tailVMap' := JoinClones(ir, f, bb, ctx, n, k, i, kept, instr, thenVMap, elseVMap, tailVMap);
        kept', remapper' := kept, remapper[instr.dst := phi.dst];
      }
    }

    /** DuplicateBB::cloneBB. */
    method CloneBB(ir: FunctionIR, bb: Label, contextValue: Operand, remapper: map<Reg, Reg>, n: nat, k: nat)
      returns (remapper': map<Reg, Reg>)
      requires CanClone(ir.Value(), bb, n, k)
      modifies ir, this
      ensures ir.Value() == Clone(old(ir.Value()), bb, SubOp(remapper, contextValue), n, k)
      ensures remapper' == remapper + Rho(old(ir.Value()), bb, n)
      ensures duplicateBBCount == old(duplicateBBCount) + 1
    {
      ghost var f := ir.Value();
      var size := |ir.blocks[bb].body|;
      ghost var body := f.blocks[bb].body;
      var ctx := SubOp(remapper, contextValue);
      SplitBlockAndInsertIfThenElse(ir, bb, ctx, n, k);
      var thenVMap: map<Reg, Reg>, elseVMap: map<Reg, Reg>, tailVMap: map<Reg, Reg> := map[], map[], map[];
      var kept := 0;
      remapper' := remapper;
      ArmMapStarts(body, n, n + 1);
      ArmMapStarts(body, n, n + 2);
      for i := 0 to size
        invariant ClonePoint(f, bb, ctx, n, k, i, ir.Value(), kept, thenVMap, elseVMap, tailVMap)
        invariant remapper' == remapper + Arm(body, n + 3, i)
        invariant duplicateBBCount == old(duplicateBBCount)
      {
        RemapStep(remapper, body, n, i);
        kept, thenVMap, elseVMap, tailVMap, remapper' := CloneInstruction(ir, f, bb, ctx, n, k, i, kept, thenVMap, elseVMap, tailVMap, remapper');
      }
      LastStep(f, bb, ctx, n, k);
      var tail := ir.blocks[k + 2];
      SameTerm(tailVMap, tail.term);
      ir.blocks := ir.blocks[k + 2 := Block(tail.phis, [], SubTerm(tailVMap, tail.term))];
      duplicateBBCount := duplicateBBCount + 1;
    }

    /** A block that is no landing pad is chosen with one of its reachable values, picked at random,
        unless it has none or the pick is a global. */
    method FindBBsToDuplicate(f: Func, riv: map<Label, Values>, landingPads: set<Label>) returns (ts: Targets)
      requires Shape(f) && forall l :: l in riv ==> l in f.blocks
      ensures Chosen(riv, ts)
      ensures forall i :: 0 <= i < |ts| ==> ts[i].0 in f.blocks
      ensures forall l :: l in landingPads ==> l !in TargetLabels(ts)
      ensures forall l :: l in riv && l !in landingPads && riv[l] != {} && NoGlobals(riv[l]) ==> l in TargetLabels(ts)
    {
      ts := [];
      for i := 0 to |f.order|
        invariant Chosen(riv, ts)
        invariant forall j :: 0 <= j < |ts| ==> ts[j].0 in f.order[..i]
        invariant forall j :: 0 <= j < |ts| ==> ts[j].0 !in landingPads
        invariant forall l :: l in f.order[..i] && l in riv && l !in landingPads && riv[l] != {} && NoGlobals(riv[l]) ==>
          l in TargetLabels(ts)
      {
        var bb := f.order[i];
        assert f.order[..i + 1] == f.order[..i] + [bb];
        if bb in landingPads {
          continue;
        }
        if bb !in riv || riv[bb] == {} {
          continue;
        }
        var v :| v in riv[bb];
        if v.Global? {
          continue;
        }
        ghost var before := ts;
        ts := ts + [(bb, v)];
        assert TargetLabels(ts) == TargetLabels(before) + {bb} by {
          assert ts[|before|].0 == bb;
          assert forall j :: 0 <= j < |before| ==> ts[j] == before[j];
        }
      }
      assert f.order[..|f.order|] == f.order;
    }

    /** One target: the context value is looked up in the map of replaced values, then the block is
        cloned. */
    method CloneTarget(ir: FunctionIR, target: (Label, Operand), remapper: map<Reg, Reg>, n: nat, k: nat)
      returns (remapper': map<Reg, Reg>, n': nat)
      requires CanClone(ir.Value(), target.0, n, k)
      modifies ir, this
      ensures State(ir.Value(), remapper', n', k + 3) == CloneOne(State(old(ir.Value()), remapper, n, k), target.0, target.1)
      ensures duplicateBBCount == old(duplicateBBCount) + 1
    {
      n' := NextReg(ir.Value(), target.0, n);
      remapper' := CloneBB(ir, target.0, target.1, remapper, n, k);
    }

    /** DuplicateBB::run: RIV is computed once, before any block is cloned.  Registers from n and
        labels from k are free. */
    method Run(ir: FunctionIR, riv: map<Label, Values>, landingPads: set<Label>, n: nat, k: nat, ghost t: Tree, ghost init: Values)
      returns (ts: Targets)
      requires WellFormed(ir.Value()) && Ready(ir.Value(), n, k)
      requires DominatorTree(ir.Value(), t) && NoRefs(init) && riv == Below(ir.Value(), t, init)
      modifies ir, this
      ensures Chosen(riv, ts) && TargetsOk(State(old(ir.Value()), map[], n, k), ts)
      ensures forall l :: l in landingPads ==> l !in TargetLabels(ts)
      ensures forall l :: l in riv && l !in landingPads && riv[l] != {} && NoGlobals(riv[l]) ==> l in TargetLabels(ts)
      ensures ir.Value() == CloneAll(State(old(ir.Value()), map[], n, k), ts).f
      ensures duplicateBBCount == old(duplicateBBCount) + |ts|
    {
      BelowKeys(ir.Value(), t, init);
      ts := FindBBsToDuplicate(ir.Value(), riv, landingPads);
      var remapper: map<Reg, Reg>, n', k' := map[], n, k;
      ghost var s, heads := State(ir.Value(), map[], n, k), {};
      ghost var s0 := s;
      RunStarts(ir.Value(), n, k, t, init, ts);
      assert ts[0..] == ts;
      for i := 0 to |ts|
        invariant s == State(ir.Value(), remapper, n', k')
        invariant RunPoint(s, n, ts[i..], heads) && TargetsOk(s, ts[i..]) && TargetLabels(ts[i..]) !! heads
        invariant CloneAll(s, ts[i..]) == CloneAll(s0, ts)
        invariant duplicateBBCount == old(duplicateBBCount) + i
      {
        PointCanClone(s, n, ts[i..], heads);
        ghost var before := s;
        remapper, n' := CloneTarget(ir, ts[i], remapper, n', k');
        k' := k' + 3;
        s := State(ir.Value(), remapper, n', k');
        AfterClone(before, n, ts[i..], heads, s);
        assert ts[i..][1..] == ts[i + 1..];
        heads := heads + {ts[i].0};
      }
    }

    /** The pass on a function with integer arguments and globals, whose reachable values it asks for. */
    method RunOnFunction(ir: FunctionIR, root: Tree, args: seq<(nat, Ty)>, globals: seq<(nat, Ty)>, landingPads: set<Label>, n: nat, k: nat)
      returns (ts: Targets)
      requires WellFormed(ir.Value()) && Ready(ir.Value(), n, k) && DominatorTree(ir.Value(), root)
      modifies ir, this
      ensures forall i :: 0 <= i < |ts| ==> ReachableInteger(old(ir.Value()), args, globals, ts[i].0, ts[i].1) && !ts[i].1.Global?
      ensures forall i :: 0 <= i < |ts| ==> ts[i].0 !in landingPads
      ensures (forall i :: 0 <= i < |globals| ==> !globals[i].1.IntTy?) ==>
        forall l, v :: l in Labels(root) && l !in landingPads && ReachableInteger(old(ir.Value()), args, globals, l, v) ==> l in TargetLabels(ts)
      ensures TargetsOk(State(old(ir.Value()), map[], n, k), ts)
      ensures ir.Value() == CloneAll(State(old(ir.Value()), map[], n, k), ts).f
    {
      var riv, _ := BuildRIV(ir.Value(), root, args, globals);
      EntryHasNoRefs(args, globals);
      BelowKeys(ir.Value(), root, EntryValues(args, globals));
      ghost var f := ir.Value();
      ts := Run(ir, riv, landingPads, n, k, root, EntryValues(args, globals));
      if forall i :: 0 <= i < |globals| ==> !globals[i].1.IntTy? {
        forall l, v | l in Labels(root) && l !in landingPads && ReachableInteger(f, args, globals, l, v)
          ensures l in TargetLabels(ts)
        {
          assert v in riv[l];
          NoGlobalReaches(f, args, globals, l, riv[l]);
        }
      }
    }
  }

  lemma NoGlobalReaches(f: Func, args: seq<(nat, Ty)>, globals: seq<(nat, Ty)>, l: Label, vs: Values)
    requires f.order != [] && (forall v :: v in vs ==> ReachableInteger(f, args, globals, l, v))
    requires forall i :: 0 <= i < |globals| ==> !globals[i].1.IntTy?
    ensures NoGlobals(vs)
  {
    forall v | v in vs
      ensures !v.Global?
    {
      assert ReachableInteger(f, args, globals, l, v);
      if !IntegerInput(args, globals, v) {
        var d, i :| StrictlyDominates(f, d, l) && IntegerAt(f, d, i, v);
      }
    }
  }

  ghost predicate NoGlobals(vs: Values) { forall v :: v in vs ==> !v.Global? }
}
