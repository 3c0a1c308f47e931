/** The DerivedInductionVar pass: the in-place code, proved against IvSpec. */
module DerivedInductionVar {
  import opened IR
  import opened Renaming
  import opened Paths
  import opened FunctionState
  import opened IvSpec

  method FindPrimary(ir: FunctionIR, h: Label, scevs: Scevs) returns (p: Option<Phi>)
    requires h in ir.blocks
    ensures p == PrimaryOf(scevs, ir.blocks[h].phis)
  {
    var phis := ir.blocks[h].phis;
    for i := 0 to |phis|
      invariant PrimaryOf(scevs, phis) == PrimaryOf(scevs, phis[i..])
    {
      assert phis[i..][1..] == phis[i + 1..];
      if IsPrimary(scevs, phis[i]) {
        return Some(phis[i]);
      }
    }
    p := None;
  }

  method FindDerived(ir: FunctionIR, h: Label, scevs: Scevs, primary: Reg) returns (ds: seq<Phi>)
    requires h in ir.blocks
    ensures ds == DerivedOf(scevs, primary, ir.blocks[h].phis)
  {
    var phis := ir.blocks[h].phis;
    ds := [];
    for i := 0 to |phis|
      invariant ds == DerivedOf(scevs, primary, phis[..i])
    {
      assert phis[..i + 1][..i] == phis[..i];
      if IsRec(scevs, phis[i]) && phis[i].dst != primary {
        ds := ds + [phis[i]];
      }
    }
    assert phis[..|phis|] == phis;
  }

  /** start + primary * step is computed before the first instruction of the header that is no PHI. */
  method InsertClosedForm(ir: FunctionIR, h: Label, prim: Rec, a: Rec, n: nat) returns (newVal: Reg)
    requires h in ir.blocks
    modifies ir`blocks
    ensures newVal == n + 2 && ir.Value() == WithNew(old(ir.Value()), h, NewInstrs(prim, a, n))
  {
    var inserted := [];
    var primaryVal := Ref(prim.phi);
    if prim.width != a.width {
      if prim.width < a.width {
        inserted := [Instr(n, Arith(SExt(prim.width), a.width), [primaryVal])];
      } else {
        inserted := [Instr(n, Arith(Trunc, a.width), [primaryVal])];
      }
      primaryVal := Ref(n);
    }
    inserted := inserted + [Instr(n + 1, Arith(Mul, a.width), [primaryVal, Const(a.step)])];
    newVal := n + 2;
    inserted := inserted + [Instr(newVal, Arith(Add, a.width), [Const(a.start), Ref(n + 1)])];
    assert inserted == NewInstrs(prim, a, n);
    ir.blocks := ir.blocks[h := ir.blocks[h].(body := inserted + ir.blocks[h].body)];
  }

  /** The uses of d in the loop's blocks become uses of p. */
  method ReplaceUsesInLoop(ir: FunctionIR, ls: seq<Label>, d: Reg, p: Reg)
    modifies ir`blocks
    ensures ir.Value() == ReplaceInLoop(old(ir.Value()), ls, map[d := p])
  {
    ghost var f := ir.Value();
    var left := set l | l in ls && l in ir.blocks;
    while left != {}
      invariant ir.blocks.Keys == f.blocks.Keys
      invariant forall l :: l in left ==> l in ls && l in f.blocks
      invariant forall l :: l in f.blocks ==>
        ir.blocks[l] == if l in ls && l !in left then ReplaceBlock(map[d := p], f.blocks[l]) else f.blocks[l]
      decreases left
    {
      var l :| l in left;
      left := left - {l};
      ir.blocks := ir.blocks[l := ReplaceBlock(map[d := p], ir.blocks[l])];
    }
    assert ir.blocks == ReplaceInLoop(f, ls, map[d := p]).blocks;
  }

  lemma {:induction false} WithoutTwice(phis: seq<Phi>, a: set<Reg>, b: set<Reg>)
    ensures WithoutPhis(WithoutPhis(phis, a), b) == WithoutPhis(phis, a + b)
  {
    if phis != [] {
      WithoutTwice(phis[1..], a, b);
      if phis[0].dst !in a {
        assert WithoutPhis(phis, a)[0] == phis[0] && WithoutPhis(phis, a)[1..] == WithoutPhis(phis[1..], a);
      } else {
        assert WithoutPhis(phis, a) == WithoutPhis(phis[1..], a);
      }
    }
  }

  lemma {:induction false} WithoutNothing(phis: seq<Phi>)
    ensures WithoutPhis(phis, {}) == phis
  {
    if phis != [] {
      WithoutNothing(phis[1..]);
    }
  }

  method EraseUnused(ir: FunctionIR, h: Label, toErase: set<Reg>)
    requires h in ir.blocks
    modifies ir`blocks
    ensures ir.Value() == ErasePhis(old(ir.Value()), h, toErase)
  {
    ghost var f := ir.Value();
    var left := toErase;
    WithoutNothing(f.blocks[h].phis);
    assert toErase - left == {};
    while left != {}
      invariant left <= toErase
      invariant ir.blocks == f.blocks[h := f.blocks[h].(phis := WithoutPhis(f.blocks[h].phis, toErase - left))]
      decreases left
    {
      var r :| r in left;
      WithoutTwice(f.blocks[h].phis, toErase - left, {r});
      assert toErase - left + {r} == toErase - (left - {r});
      left := left - {r};
      ir.blocks := ir.blocks[h := ir.blocks[h].(phis := WithoutPhis(ir.blocks[h].phis, {r}))];
    }
    assert toErase - left == toErase;
  }

  /** One derived PHI. */
  method RewritePhi(ir: FunctionIR, loop: Loop, prim: Rec, scevs: Scevs, phi: Phi, n: nat, toErase: set<Reg>)
    returns (n': nat, toErase': set<Reg>)
    requires loop.header in ir.blocks
    modifies ir`blocks
    ensures Progress(ir.Value(), n', toErase') == RewriteOne(Progress(old(ir.Value()), n, toErase), loop, prim, scevs, phi)
  {
    n', toErase' := n, toErase;
    if !IsConstRec(scevs, phi) {
      return;
    }
    var a := RecOf(scevs, phi);
    var newVal := InsertClosedForm(ir, loop.header, prim, a, n);
    n' := n + 3;
    var used := UsedInLoop(ir.Value(), loop.blocks, a.phi);
    if !used {
      NothingToReplace(ir.Value(), loop.blocks, a.phi, newVal);
      return;
    }
    ReplaceUsesInLoop(ir, loop.blocks, a.phi, newVal);
    if UseEmpty(ir.Value(), a.phi) {
      toErase' := toErase + {a.phi};
    }
  }

  lemma UnusedOps(xs: seq<Operand>, d: Reg, p: Reg)
    requires forall k :: 0 <= k < |xs| ==> xs[k] != Ref(d)
    ensures SubOps(map[d := p], xs) == xs
  {
  }

  lemma UnusedIncoming(inc: seq<(Label, Operand)>, d: Reg, p: Reg)
    requires forall k :: 0 <= k < |inc| ==> inc[k].1 != Ref(d)
    ensures SubIncoming(map[d := p], inc) == inc
  {
  }

  lemma UnusedBlock(f: Func, ls: seq<Label>, d: Reg, p: Reg, l: Label)
    requires !UsedInLoop(f, ls, d) && l in ls && l in f.blocks
    ensures ReplaceBlock(map[d := p], f.blocks[l]) == f.blocks[l]
  {
    var b := f.blocks[l];
    forall i, k | 0 <= i <= Count(b) && 0 <= k < |OperandsAt(b, i)|
      ensures OperandsAt(b, i)[k] != Ref(d)
    {
      assert Site(l, i, k) in UseSites(f, d) <==> UsedAt(f, Site(l, i, k), d);
    }
    forall i | 0 <= i < |b.body|
      ensures ReplaceInstr(map[d := p], b.body[i]) == b.body[i]
    {
      assert OperandsAt(b, |b.phis| + i) == if b.body[i].op.dbg then [] else b.body[i].args;
      if !b.body[i].op.dbg {
        UnusedOps(b.body[i].args, d, p);
      }
    }
    assert ReplaceBody(map[d := p], b.body) == b.body;
    assert OperandsAt(b, Count(b)) == b.term.uses;
    UnusedOps(b.term.uses, d, p);
    forall i | 0 <= i < |b.phis|
      ensures SubPhis(map[d := p], b.phis)[i] == b.phis[i]
    {
      var inc := b.phis[i].incoming;
      assert OperandsAt(b, i) == IncomingValues(inc);
      forall k | 0 <= k < |inc|
        ensures inc[k].1 != Ref(d)
      {
        assert IncomingValues(inc)[k] == inc[k].1;
      }
      UnusedIncoming(inc, d, p);
    }
    assert SubPhis(map[d := p], b.phis) == b.phis;
  }

  /** Without uses in the loop the rewriting only inserts. */
  lemma NothingToReplace(f: Func, ls: seq<Label>, d: Reg, p: Reg)
    requires !UsedInLoop(f, ls, d)
    ensures ReplaceInLoop(f, ls, map[d := p]) == f
  {
    forall l | l in f.blocks && l in ls
      ensures ReplaceBlock(map[d := p], f.blocks[l]) == f.blocks[l]
    {
      UnusedBlock(f, ls, d, p, l);
    }
    assert ReplaceInLoop(f, ls, map[d := p]).blocks == f.blocks;
  }

  /** An innermost loop. */
  method ProcessInnermost(ir: FunctionIR, loop: Loop, scevs: Scevs, n: nat) returns (n': nat)
    requires loop.header in ir.blocks
    modifies ir`blocks
    ensures (ir.Value(), n') == ProcessLoop(old(ir.Value()), loop, scevs, n)
  {
    n' := n;
    var primaryIV := FindPrimary(ir, loop.header, scevs);
    if primaryIV.None? || !IsConstRec(scevs, primaryIV.value) {
      return;
    }
    var derived := FindDerived(ir, loop.header, scevs, primaryIV.value.dst);
    var prim := RecOf(scevs, primaryIV.value);
    ghost var s := Progress(ir.Value(), n, {});
    var toErase: set<Reg> := {};
    for i := 0 to |derived|
      invariant loop.header in ir.blocks
      invariant Progress(ir.Value(), n', toErase) == RewriteAll(s, loop, prim, scevs, derived[..i])
    {
      n', toErase := RewritePhi(ir, loop, prim, scevs, derived[i], n', toErase);
      assert derived[..i + 1][..i] == derived[..i];
    }
    assert derived[..|derived|] == derived;
    EraseUnused(ir, loop.header, toErase);
  }

  // ----- The loop forest -----

  datatype LoopTree = LoopTree(loop: Loop, subs: seq<LoopTree>)

  /** The innermost loops, in the order of the recursion. */
  function Innermost(t: LoopTree): seq<Loop> {
    if t.subs == [] then [t.loop] else AllInnermost(t.subs)
  }

  function AllInnermost(ts: seq<LoopTree>): seq<Loop> {
    if ts == [] then [] else Innermost(ts[0]) + AllInnermost(ts[1..])
  }

  /** u is t or a node below it. */
  ghost predicate NodeOf(t: LoopTree, u: LoopTree)
    decreases t
  {
    u == t || exists i :: 0 <= i < |t.subs| && NodeOf(t.subs[i], u)
  }

  /** The loop contains no other loop of t. */
  ghost predicate InnermostIn(t: LoopTree, loop: Loop) { exists u :: NodeOf(t, u) && u.loop == loop && |u.subs| == 0 }

  /** The loops of all nodes. */
  ghost function Loops(t: LoopTree): multiset<Loop>
    decreases t, 0
  {
    multiset{t.loop} + AllLoops(t.subs)
  }

  ghost function AllLoops(ts: seq<LoopTree>): multiset<Loop>
    decreases ts, 1
  {
    if ts == [] then multiset{} else Loops(ts[0]) + AllLoops(ts[1..])
  }

  lemma {:induction false} AllInnermostHas(ts: seq<LoopTree>, loop: Loop)
    ensures loop in AllInnermost(ts) <==> exists i :: 0 <= i < |ts| && loop in Innermost(ts[i])
  {
    if ts != [] {
      AllInnermostHas(ts[1..], loop);
      if i :| 0 <= i < |ts| && loop in Innermost(ts[i]) {
        assert i > 0 ==> ts[1..][i - 1] == ts[i];
      }
      if i :| 0 <= i < |ts[1..]| && loop in Innermost(ts[1..][i]) {
        assert ts[i + 1] == ts[1..][i];
      }
    }
  }

  /** The recursion reaches exactly the loops that have no subloops. */
  lemma {:induction false} InnermostIs(t: LoopTree, loop: Loop)
    ensures loop in Innermost(t) <==> InnermostIn(t, loop)
    decreases t
  {
    forall i | 0 <= i < |t.subs|
      ensures loop in Innermost(t.subs[i]) <==> InnermostIn(t.subs[i], loop)
    {
      InnermostIs(t.subs[i], loop);
    }
    AllInnermostHas(t.subs, loop);
    if t.subs == [] {
      assert NodeOf(t, t);
    } else if i :| 0 <= i < |t.subs| && InnermostIn(t.subs[i], loop) {
      var u :| NodeOf(t.subs[i], u) && u.loop == loop && |u.subs| == 0;
      assert NodeOf(t, u);
    }
  }

  lemma {:induction false} InnermostCounted(t: LoopTree)
    ensures multiset(Innermost(t)) <= Loops(t)
    decreases t, 0
  {
    if t.subs != [] {
      AllInnermostCounted(t.subs);
    }
  }

  lemma {:induction false} AllInnermostCounted(ts: seq<LoopTree>)
    ensures multiset(AllInnermost(ts)) <= AllLoops(ts)
    decreases ts, 1
  {
    if ts != [] {
      InnermostCounted(ts[0]);
      AllInnermostCounted(ts[1..]);
    }
  }

  /** If the loops differ, each innermost one is processed once. */
  lemma InnermostOnce(t: LoopTree, loop: Loop)
    requires forall l :: Loops(t)[l] <= 1
    ensures multiset(Innermost(t))[loop] == if InnermostIn(t, loop) then 1 else 0
  {
    InnermostCounted(t);
    InnermostIs(t, loop);
    assert loop in multiset(Innermost(t)) <==> loop in Innermost(t);
    assert multiset(Innermost(t))[loop] <= Loops(t)[loop];
  }

  lemma {:induction false} ProcessAppend(f: Func, a: seq<Loop>, b: seq<Loop>, scevs: Scevs, n: nat)
    requires forall loop :: loop in a + b ==> loop.header in f.blocks
    ensures (forall loop :: loop in a ==> loop in a + b) && (forall loop :: loop in b ==> loop in a + b)
    ensures ProcessAll(f, a + b, scevs, n) == var t := ProcessAll(f, a, scevs, n); ProcessAll(t.0, b, scevs, t.1)
    decreases a
  {
    if a == [] {
      assert a + b == b;
    } else {
      assert (a + b)[0] == a[0] && (a + b)[1..] == a[1..] + b;
      var t := ProcessLoop(f, a[0], scevs, n);
      ProcessAppend(t.0, a[1..], b, scevs, t.1);
    }
  }

  /** Of a loop in a loop the inner one is processed, and nothing else happens. */
  lemma NestIsInner(f: Func, outer: Loop, inner: Loop, scevs: Scevs, n: nat)
    requires inner.header in f.blocks
    ensures Innermost(LoopTree(outer, [LoopTree(inner, [])])) == [inner]
    ensures ProcessAll(f, [inner], scevs, n) == ProcessLoop(f, inner, scevs, n)
  {
    var t := LoopTree(inner, []);
    assert [t][0] == t && [t][1..] == [] && t.subs == [];
    assert AllInnermost([t]) == Innermost(t) + AllInnermost([]);
    assert [inner][1..] == [];
  }

  /** Only innermost loops are rewritten; the others only hand on to their subloops. */
  method ProcessLoopAndSubloops(ir: FunctionIR, t: LoopTree, scevs: Scevs, n: nat) returns (n': nat)
    requires forall loop :: loop in Innermost(t) ==> loop.header in ir.blocks
    modifies ir`blocks
    ensures (ir.Value(), n') == ProcessAll(old(ir.Value()), Innermost(t), scevs, n)
    ensures |t.subs| == 0 ==> t.loop.header in old(ir.blocks) && (ir.Value(), n') == ProcessLoop(old(ir.Value()), t.loop, scevs, n)
    decreases t, 0
  {
    if t.subs == [] {
      assert t.loop in Innermost(t);
      n' := ProcessInnermost(ir, t.loop, scevs, n);
      assert [t.loop][1..] == [];
    } else {
      n' := ProcessLoops(ir, t.subs, scevs, n);
    }
  }

  method ProcessLoops(ir: FunctionIR, ts: seq<LoopTree>, scevs: Scevs, n: nat) returns (n': nat)
    requires forall loop :: loop in AllInnermost(ts) ==> loop.header in ir.blocks
    modifies ir`blocks
    ensures (ir.Value(), n') == ProcessAll(old(ir.Value()), AllInnermost(ts), scevs, n)
    decreases ts
  {
    n' := n;
    if ts != [] {
      ProcessAppend(ir.Value(), Innermost(ts[0]), AllInnermost(ts[1..]), scevs, n);
      n' := ProcessLoopAndSubloops(ir, ts[0], scevs, n');
      n' := ProcessLoops(ir, ts[1..], scevs, n');
    }
  }
}
