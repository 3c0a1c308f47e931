/** What DerivedInductionVar does to a loop, in terms of the function before and after: which uses are
    replaced, by what, and which PHIs go. */
module IvExact {
  import opened IR
  import opened Renaming
  import opened Paths
  import opened IvSpec

  // ----- Which blocks read a register -----

  ghost predicate BlockReads(b: Block, r: Reg) { PhisRead(b.phis, r) || BodyReads(b.body, r) || Ref(r) in b.term.uses }

  ghost predicate PhisRead(phis: seq<Phi>, r: Reg) {
    exists i, k :: 0 <= i < |phis| && 0 <= k < |phis[i].incoming| && phis[i].incoming[k].1 == Ref(r)
  }

  ghost predicate BodyReads(body: seq<Instr>, r: Reg) {
    exists i :: 0 <= i < |body| && !body[i].op.dbg && ReadsReg(body[i], r)
  }

  /** r is used in a block of ls, or in another block. */
  ghost predicate UsedInside(f: Func, ls: seq<Label>, r: Reg) { exists s :: UsedAt(f, s, r) && s.l in ls }

  ghost predicate UsedOutside(f: Func, ls: seq<Label>, r: Reg) { exists s :: UsedAt(f, s, r) && s.l !in ls }

  lemma UseIsRead(f: Func, s: Site, r: Reg)
    requires UsedAt(f, s, r)
    ensures BlockReads(f.blocks[s.l], r)
  {
    var b := f.blocks[s.l];
    if s.i < |b.phis| {
      assert IncomingValues(b.phis[s.i].incoming)[s.k] == b.phis[s.i].incoming[s.k].1;
    } else if s.i < Count(b) {
      assert ReadsReg(b.body[s.i - |b.phis|], r);
    }
  }

  lemma ReadIsUse(f: Func, l: Label, r: Reg) returns (s: Site)
    requires l in f.blocks && BlockReads(f.blocks[l], r)
    ensures s.l == l && UsedAt(f, s, r)
  {
    var b := f.blocks[l];
    if PhisRead(b.phis, r) {
      var i, k :| 0 <= i < |b.phis| && 0 <= k < |b.phis[i].incoming| && b.phis[i].incoming[k].1 == Ref(r);
      assert OperandsAt(b, i)[k] == Ref(r);
      s := Site(l, i, k);
    } else if BodyReads(b.body, r) {
      var i :| 0 <= i < |b.body| && !b.body[i].op.dbg && ReadsReg(b.body[i], r);
      var k :| 0 <= k < |b.body[i].args| && b.body[i].args[k] == Ref(r);
      assert OperandsAt(b, |b.phis| + i)[k] == Ref(r);
      s := Site(l, |b.phis| + i, k);
    } else {
      var k :| 0 <= k < |b.term.uses| && b.term.uses[k] == Ref(r);
      assert OperandsAt(b, Count(b))[k] == Ref(r);
      s := Site(l, Count(b), k);
    }
  }

  /** Some block, of ls or not, reads r. */
  ghost predicate Reads(f: Func, ls: seq<Label>, inside: bool, r: Reg) {
    exists l :: l in f.blocks && (l in ls) == inside && BlockReads(f.blocks[l], r)
  }

  lemma UsedIsReads(f: Func, ls: seq<Label>, r: Reg)
    ensures UsedInside(f, ls, r) <==> Reads(f, ls, true, r)
    ensures UsedOutside(f, ls, r) <==> Reads(f, ls, false, r)
    ensures UsedInLoop(f, ls, r) <==> Reads(f, ls, true, r)
    ensures UseEmpty(f, r) <==> !Reads(f, ls, true, r) && !Reads(f, ls, false, r)
  {
    forall s | UsedAt(f, s, r)
      ensures Reads(f, ls, s.l in ls, r)
    {
      UseIsRead(f, s, r);
    }
    forall l | l in f.blocks && BlockReads(f.blocks[l], r)
      ensures exists s :: UsedAt(f, s, r) && s.l == l && s in UseSites(f, r)
    {
      var s := ReadIsUse(f, l, r);
    }
  }

  // ----- One rewriting -----

  lemma OpsRead(m: map<Reg, Reg>, xs: seq<Operand>, r: Reg)
    requires forall d :: d in m ==> m[d] != r
    ensures Ref(r) in SubOps(m, xs) <==> r !in m && Ref(r) in xs
  {
    var ys := SubOps(m, xs);
    if k :| 0 <= k < |ys| && ys[k] == Ref(r) {
      assert SubOp(m, xs[k]) == Ref(r);
      assert xs[k] in xs;
    }
    if k :| 0 <= k < |xs| && xs[k] == Ref(r) {
      assert ys[k] == SubOp(m, xs[k]);
    }
  }

  lemma PhisReadAfter(m: map<Reg, Reg>, phis: seq<Phi>, r: Reg)
    requires forall d :: d in m ==> m[d] != r
    ensures PhisRead(SubPhis(m, phis), r) <==> r !in m && PhisRead(phis, r)
  {
    var qs := SubPhis(m, phis);
    if i, k :| 0 <= i < |qs| && 0 <= k < |qs[i].incoming| && qs[i].incoming[k].1 == Ref(r) {
      assert qs[i].incoming[k].1 == SubOp(m, phis[i].incoming[k].1);
    }
    if i, k :| 0 <= i < |phis| && 0 <= k < |phis[i].incoming| && phis[i].incoming[k].1 == Ref(r) {
      assert qs[i].incoming[k].1 == SubOp(m, Ref(r));
    }
  }

  lemma BodyReadsAfter(m: map<Reg, Reg>, body: seq<Instr>, r: Reg)
    requires forall d :: d in m ==> m[d] != r
    ensures BodyReads(ReplaceBody(m, body), r) <==> r !in m && BodyReads(body, r)
  {
    forall i | 0 <= i < |body| && !body[i].op.dbg
      ensures ReadsReg(ReplaceBody(m, body)[i], r) <==> r !in m && ReadsReg(body[i], r)
    {
      OpsRead(m, body[i].args, r);
    }
  }

  lemma BlockReadsAfter(m: map<Reg, Reg>, b: Block, r: Reg)
    requires forall d :: d in m ==> m[d] != r
    ensures BlockReads(ReplaceBlock(m, b), r) <==> r !in m && BlockReads(b, r)
  {
    PhisReadAfter(m, b.phis, r);
    BodyReadsAfter(m, b.body, r);
    OpsRead(m, b.term.uses, r);
  }

  /** The inserted instructions read the primary, and registers that they make. */
  lemma NewReads(prim: Rec, a: Rec, m: nat, r: Reg)
    requires r < m
    ensures BodyReads(NewInstrs(prim, a, m), r) <==> r == prim.phi
  {
    var s, c := NewInstrs(prim, a, m), CastInstrs(prim, a.width, m);
    assert forall i :: 0 <= i < |c| ==> s[i] == c[i];
    assert s[|c|].args == [PrimaryValue(prim, a.width, m), Const(a.step)];
    assert s[|c| + 1].args == [Const(a.start), Ref(m + 1)];
    if prim.width != a.width {
      assert s[0].args == [Ref(prim.phi)];
    }
    if r == prim.phi {
      assert ReadsReg(s[0], r);
    }
  }

  lemma BodyReadsAppend(p: seq<Instr>, q: seq<Instr>, r: Reg)
    ensures BodyReads(p + q, r) <==> BodyReads(p, r) || BodyReads(q, r)
  {
    var s := p + q;
    if i :| 0 <= i < |p| && !p[i].op.dbg && ReadsReg(p[i], r) {
      assert s[i] == p[i];
    }
    if i :| 0 <= i < |q| && !q[i].op.dbg && ReadsReg(q[i], r) {
      assert s[|p| + i] == q[i];
    }
  }

  /** What is given of the loop and of one recurrence. */
  ghost predicate OneRec(f: Func, loop: Loop, prim: Rec, a: Rec, m: nat) {
    loop.header in f.blocks && loop.header in loop.blocks && prim.phi < m && a.phi < m && a.phi != prim.phi
  }

  lemma WithNewReads(f: Func, loop: Loop, prim: Rec, a: Rec, m: nat, l: Label, r: Reg)
    requires OneRec(f, loop, prim, a, m) && r < m && l in f.blocks
    ensures BlockReads(WithNew(f, loop.header, NewInstrs(prim, a, m)).blocks[l], r) <==>
      BlockReads(f.blocks[l], r) || (l == loop.header && r == prim.phi)
  {
    NewReads(prim, a, m, r);
    BodyReadsAppend(NewInstrs(prim, a, m), f.blocks[l].body, r);
  }

  lemma RewriteReadsAt(f: Func, loop: Loop, prim: Rec, a: Rec, m: nat, l: Label, r: Reg)
    requires OneRec(f, loop, prim, a, m) && r < m && l in f.blocks
    ensures BlockReads(Rewrite(f, loop, prim, a, m).blocks[l], r) <==>
      if l in loop.blocks then r != a.phi && (BlockReads(f.blocks[l], r) || (l == loop.header && r == prim.phi))
      else BlockReads(f.blocks[l], r)
  {
    WithNewReads(f, loop, prim, a, m, l, r);
    if l in loop.blocks {
      BlockReadsAfter(map[a.phi := m + 2], WithNew(f, loop.header, NewInstrs(prim, a, m)).blocks[l], r);
    }
  }

  /** The uses of a's PHI in the loop go, those of other registers stay. */
  lemma RewriteReads(f: Func, loop: Loop, prim: Rec, a: Rec, m: nat, r: Reg)
    requires OneRec(f, loop, prim, a, m) && r < m && r != prim.phi
    ensures var g := Rewrite(f, loop, prim, a, m);
      && (Reads(g, loop.blocks, true, r) <==> r != a.phi && Reads(f, loop.blocks, true, r))
      && (Reads(g, loop.blocks, false, r) <==> Reads(f, loop.blocks, false, r))
  {
    forall l | l in f.blocks
      ensures BlockReads(Rewrite(f, loop, prim, a, m).blocks[l], r) <==> (l !in loop.blocks || r != a.phi) && BlockReads(f.blocks[l], r)
    {
      RewriteReadsAt(f, loop, prim, a, m, l, r);
    }
  }

  lemma UsedBefore(f: Func, loop: Loop, prim: Rec, a: Rec, m: nat)
    requires OneRec(f, loop, prim, a, m)
    ensures UsedInLoop(WithNew(f, loop.header, NewInstrs(prim, a, m)), loop.blocks, a.phi) <==> Reads(f, loop.blocks, true, a.phi)
  {
    var h := WithNew(f, loop.header, NewInstrs(prim, a, m));
    UsedIsReads(h, loop.blocks, a.phi);
    forall l | l in f.blocks
      ensures BlockReads(h.blocks[l], a.phi) <==> BlockReads(f.blocks[l], a.phi)
    {
      WithNewReads(f, loop, prim, a, m, l, a.phi);
    }
  }

  // ----- The instructions that compute the closed form -----

  /** An instruction that does not read the replaced PHI stays. */
  lemma InstrStays(m: map<Reg, Reg>, body: seq<Instr>, x: Instr)
    requires x in body && forall k :: 0 <= k < |x.args| && x.args[k].Ref? ==> x.args[k].r !in m
    ensures x in ReplaceBody(m, body)
  {
    var i :| 0 <= i < |body| && body[i] == x;
    assert SubOps(m, x.args) == x.args;
    assert ReplaceBody(m, body)[i] == x;
  }

  /** The body computes start + primary * step of width a.width in register k + 2, the primary cast to
      that width. */
  ghost predicate ComputesIn(body: seq<Instr>, prim: Rec, a: Rec, k: nat) {
    && (prim.width < a.width ==> Instr(k, Arith(SExt(prim.width), a.width), [Ref(prim.phi)]) in body)
    && (prim.width > a.width ==> Instr(k, Arith(Trunc, a.width), [Ref(prim.phi)]) in body)
    && Instr(k + 1, Arith(Mul, a.width), [Ref(if prim.width == a.width then prim.phi else k), Const(a.step)]) in body
    && Instr(k + 2, Arith(Add, a.width), [Const(a.start), Ref(k + 1)]) in body
  }

  lemma NewComputes(prim: Rec, a: Rec, m: nat, body: seq<Instr>)
    ensures ComputesIn(NewInstrs(prim, a, m) + body, prim, a, m)
  {
    var s, c := NewInstrs(prim, a, m) + body, CastInstrs(prim, a.width, m);
    assert s[|c|] == Instr(m + 1, Arith(Mul, a.width), [PrimaryValue(prim, a.width, m), Const(a.step)]);
    assert s[|c| + 1] == Instr(m + 2, Arith(Add, a.width), [Const(a.start), Ref(m + 1)]);
    if prim.width != a.width {
      assert s[0] == c[0];
    }
  }

  lemma ComputesStays(sub: map<Reg, Reg>, body: seq<Instr>, prim: Rec, a: Rec, k: nat)
    requires ComputesIn(body, prim, a, k) && prim.phi !in sub && k !in sub && k + 1 !in sub
    ensures ComputesIn(ReplaceBody(sub, body), prim, a, k)
  {
    var v := if prim.width == a.width then prim.phi else k;
    InstrStays(sub, body, Instr(k + 1, Arith(Mul, a.width), [Ref(v), Const(a.step)]));
    InstrStays(sub, body, Instr(k + 2, Arith(Add, a.width), [Const(a.start), Ref(k + 1)]));
    if prim.width < a.width {
      InstrStays(sub, body, Instr(k, Arith(SExt(prim.width), a.width), [Ref(prim.phi)]));
    } else if prim.width > a.width {
      InstrStays(sub, body, Instr(k, Arith(Trunc, a.width), [Ref(prim.phi)]));
    }
  }

  lemma RewriteComputes(f: Func, loop: Loop, prim: Rec, a: Rec, m: nat)
    requires OneRec(f, loop, prim, a, m)
    ensures ComputesIn(Rewrite(f, loop, prim, a, m).blocks[loop.header].body, prim, a, m)
  {
    NewComputes(prim, a, m, f.blocks[loop.header].body);
    ComputesStays(map[a.phi := m + 2], NewInstrs(prim, a, m) + f.blocks[loop.header].body, prim, a, m);
  }

  /** Rewriting a leaves the closed form of b, whose registers are not PHIs. */
  lemma RewriteKeeps(f: Func, loop: Loop, prim: Rec, a: Rec, m: nat, b: Rec, k: nat)
    requires OneRec(f, loop, prim, a, m) && a.phi < k && ComputesIn(f.blocks[loop.header].body, prim, b, k)
    ensures ComputesIn(Rewrite(f, loop, prim, a, m).blocks[loop.header].body, prim, b, k)
  {
    var body := NewInstrs(prim, a, m) + f.blocks[loop.header].body;
    assert ComputesIn(body, prim, b, k);
    ComputesStays(map[a.phi := m + 2], body, prim, b, k);
  }

  // ----- All derived PHIs of a loop -----

  /** An integer PHI that scalar evolution calls an affine recurrence with constant start and step. */
  ghost predicate Linear(scevs: Scevs, phi: Phi) {
    && phi.ty.IntTy? && phi.dst in scevs && scevs[phi.dst].AddRec? && scevs[phi.dst].affine
    && scevs[phi.dst].start.Some? && scevs[phi.dst].step.Some?
  }

  ghost function LinearRec(scevs: Scevs, phi: Phi): Rec
    requires Linear(scevs, phi)
  {
    Rec(phi.dst, phi.ty.width, scevs[phi.dst].start.value, scevs[phi.dst].step.value)
  }

  /** It counts the iterations. */
  ghost predicate Counter(scevs: Scevs, phi: Phi) {
    Linear(scevs, phi) && scevs[phi.dst].start == Some(0) && scevs[phi.dst].step == Some(1)
  }

  /** r is the register of a linear PHI of ds. */
  ghost predicate LinearIn(scevs: Scevs, ds: seq<Phi>, r: Reg) {
    exists i :: 0 <= i < |ds| && Linear(scevs, ds[i]) && ds[i].dst == r
  }

  ghost predicate SameDsts(p: seq<Phi>, q: seq<Phi>) { |p| == |q| && forall i :: 0 <= i < |p| ==> q[i].dst == p[i].dst }

  /** The PHIs of ds, other than the primary, have registers of their own below n. */
  ghost predicate OwnRegs(ds: seq<Phi>, prim: Reg, n: nat) {
    && (forall i :: 0 <= i < |ds| ==> ds[i].dst < n && ds[i].dst != prim)
    && (forall i, j :: 0 <= i < j < |ds| ==> ds[i].dst != ds[j].dst)
  }

  /** What has happened to the function when the PHIs of ds have been dealt with. */
  ghost predicate DoneReads(f: Func, s: Progress, ls: seq<Label>, prim: Reg, scevs: Scevs, ds: seq<Phi>, n: nat) {
    && (forall r: nat :: r < n && r != prim ==> (Reads(s.f, ls, false, r) <==> Reads(f, ls, false, r)))
    && (forall r: nat :: r < n && r != prim ==> (Reads(s.f, ls, true, r) <==> Reads(f, ls, true, r) && !LinearIn(scevs, ds, r)))
    && (forall r :: r in s.dead <==> LinearIn(scevs, ds, r) && Reads(f, ls, true, r) && !Reads(f, ls, false, r))
  }

  ghost predicate DoneForms(s: Progress, h: Label, prim: Rec, scevs: Scevs, ds: seq<Phi>, n: nat)
    requires h in s.f.blocks
  {
    forall i :: 0 <= i < |ds| && Linear(scevs, ds[i]) ==> HasForm(s.f.blocks[h].body, prim, LinearRec(scevs, ds[i]), n)
  }

  /** The closed form of a is computed in registers from n on. */
  ghost predicate HasForm(body: seq<Instr>, prim: Rec, a: Rec, n: nat) { exists k :: k >= n && ComputesIn(body, prim, a, k) }

  ghost predicate LoopDone(f: Func, s: Progress, loop: Loop, prim: Rec, scevs: Scevs, ds: seq<Phi>, n: nat)
    requires loop.header in f.blocks && loop.header in s.f.blocks
  {
    && s.n >= n && SameDsts(f.blocks[loop.header].phis, s.f.blocks[loop.header].phis)
    && DoneReads(f, s, loop.blocks, prim.phi, scevs, ds, n)
    && DoneForms(s, loop.header, prim, scevs, ds, n)
  }

  lemma LinearInMore(scevs: Scevs, ds: seq<Phi>, phi: Phi, r: Reg)
    ensures LinearIn(scevs, ds + [phi], r) <==> LinearIn(scevs, ds, r) || (Linear(scevs, phi) && phi.dst == r)
  {
    var es := ds + [phi];
    assert es[|ds|] == phi && forall i :: 0 <= i < |ds| ==> es[i] == ds[i];
  }

  lemma NotYetLinear(scevs: Scevs, ds: seq<Phi>, phi: Phi, prim: Reg, n: nat)
    requires OwnRegs(ds + [phi], prim, n)
    ensures OwnRegs(ds, prim, n) && !LinearIn(scevs, ds, phi.dst) && phi.dst < n && phi.dst != prim
  {
    var es := ds + [phi];
    assert es[|ds|] == phi && forall i :: 0 <= i < |ds| ==> es[i] == ds[i];
  }

  lemma StepReads(f: Func, s: Progress, loop: Loop, prim: Rec, scevs: Scevs, ds: seq<Phi>, phi: Phi, n: nat)
    requires loop.header in s.f.blocks && loop.header in loop.blocks && prim.phi < n <= s.n
    requires OwnRegs(ds + [phi], prim.phi, n) && Linear(scevs, phi) && DoneReads(f, s, loop.blocks, prim.phi, scevs, ds, n)
    ensures DoneReads(f, RewriteOne(s, loop, prim, scevs, phi), loop.blocks, prim.phi, scevs, ds + [phi], n)
  {
    var a, ls := RecOf(scevs, phi), loop.blocks;
    var g := Rewrite(s.f, loop, prim, a, s.n);
    NotYetLinear(scevs, ds, phi, prim.phi, n);
    forall r: nat | r < n && r != prim.phi
      ensures Reads(g, ls, false, r) <==> Reads(f, ls, false, r)
      ensures Reads(g, ls, true, r) <==> Reads(f, ls, true, r) && !LinearIn(scevs, ds + [phi], r)
    {
      RewriteReads(s.f, loop, prim, a, s.n, r);
      LinearInMore(scevs, ds, phi, r);
    }
    UsedBefore(s.f, loop, prim, a, s.n);
    UsedIsReads(g, ls, a.phi);
    forall r
      ensures LinearIn(scevs, ds + [phi], r) <==> LinearIn(scevs, ds, r) || r == a.phi
    {
      LinearInMore(scevs, ds, phi, r);
    }
  }

  lemma StepForms(s: Progress, loop: Loop, prim: Rec, scevs: Scevs, ds: seq<Phi>, phi: Phi, n: nat)
    requires loop.header in s.f.blocks && loop.header in loop.blocks && prim.phi < n <= s.n
    requires OwnRegs(ds + [phi], prim.phi, n) && Linear(scevs, phi) && DoneForms(s, loop.header, prim, scevs, ds, n)
    ensures DoneForms(RewriteOne(s, loop, prim, scevs, phi), loop.header, prim, scevs, ds + [phi], n)
  {
    var a := RecOf(scevs, phi);
    NotYetLinear(scevs, ds, phi, prim.phi, n);
    var es, body := ds + [phi], Rewrite(s.f, loop, prim, a, s.n).blocks[loop.header].body;
    RewriteComputes(s.f, loop, prim, a, s.n);
    forall i | 0 <= i < |es| && Linear(scevs, es[i])
      ensures HasForm(body, prim, LinearRec(scevs, es[i]), n)
    {
      if i < |ds| {
        assert es[i] == ds[i];
        var k :| k >= n && ComputesIn(s.f.blocks[loop.header].body, prim, LinearRec(scevs, ds[i]), k);
        RewriteKeeps(s.f, loop, prim, a, s.n, LinearRec(scevs, ds[i]), k);
      } else {
        assert LinearRec(scevs, es[i]) == a;
      }
    }
  }

  lemma NotLinearStep(f: Func, s: Progress, loop: Loop, prim: Rec, scevs: Scevs, ds: seq<Phi>, phi: Phi, n: nat)
    requires loop.header in f.blocks && loop.header in s.f.blocks && LoopDone(f, s, loop, prim, scevs, ds, n) && !Linear(scevs, phi)
    ensures LoopDone(f, s, loop, prim, scevs, ds + [phi], n)
  {
    forall r
      ensures LinearIn(scevs, ds + [phi], r) <==> LinearIn(scevs, ds, r)
    {
      LinearInMore(scevs, ds, phi, r);
    }
    assert forall i :: 0 <= i < |ds| ==> (ds + [phi])[i] == ds[i];
  }

  lemma {:induction false} AllDone(f: Func, n: nat, loop: Loop, prim: Rec, scevs: Scevs, ds: seq<Phi>)
    requires loop.header in f.blocks && loop.header in loop.blocks && prim.phi < n && OwnRegs(ds, prim.phi, n)
    ensures LoopDone(f, RewriteAll(Progress(f, n, {}), loop, prim, scevs, ds), loop, prim, scevs, ds, n)
    decreases |ds|
  {
    if ds != [] {
      var es, phi := ds[..|ds| - 1], ds[|ds| - 1];
      assert ds == es + [phi];
      NotYetLinear(scevs, es, phi, prim.phi, n);
      AllDone(f, n, loop, prim, scevs, es);
      var s := RewriteAll(Progress(f, n, {}), loop, prim, scevs, es);
      if Linear(scevs, phi) {
        StepReads(f, s, loop, prim, scevs, es, phi, n);
        StepForms(s, loop, prim, scevs, es, phi, n);
      } else {
        NotLinearStep(f, s, loop, prim, scevs, es, phi, n);
      }
    }
  }

  // ----- Which PHI is the primary, which are derived -----

  lemma {:induction false} PrimaryIs(scevs: Scevs, phis: seq<Phi>, p: nat)
    requires p <= |phis| && (forall q :: 0 <= q < p ==> !Counter(scevs, phis[q])) && (p < |phis| ==> Counter(scevs, phis[p]))
    ensures PrimaryOf(scevs, phis) == if p < |phis| then Some(phis[p]) else None
    decreases phis
  {
    if phis != [] && p > 0 {
      assert !Counter(scevs, phis[0]);
      assert forall q :: 0 <= q < |phis[1..]| ==> phis[1..][q] == phis[q + 1];
      PrimaryIs(scevs, phis[1..], p - 1);
    }
  }

  ghost predicate DistinctPhis(phis: seq<Phi>) { forall i, j :: 0 <= i < j < |phis| ==> phis[i].dst != phis[j].dst }

  lemma {:induction false} DerivedIs(scevs: Scevs, primary: Reg, phis: seq<Phi>)
    ensures forall phi :: phi in DerivedOf(scevs, primary, phis) <==> phi in phis && IsRec(scevs, phi) && phi.dst != primary
    ensures DistinctPhis(phis) ==> DistinctPhis(DerivedOf(scevs, primary, phis))
    decreases |phis|
  {
    if phis != [] {
      var n := |phis| - 1;
      var ds := DerivedOf(scevs, primary, phis[..n]);
      DerivedIs(scevs, primary, phis[..n]);
      assert phis == phis[..n] + [phis[n]];
      if DistinctPhis(phis) {
        forall i | 0 <= i < |ds|
          ensures ds[i].dst != phis[n].dst
        {
          assert ds[i] in phis[..n];
        }
      }
    }
  }

  /** PHI i of the header is linear and not the primary p. */
  ghost predicate Derived(scevs: Scevs, phis: seq<Phi>, p: nat, i: nat)
    requires i < |phis|
  {
    i != p && Linear(scevs, phis[i])
  }

  lemma DerivedLinear(scevs: Scevs, phis: seq<Phi>, p: nat, i: nat)
    requires DistinctPhis(phis) && p < |phis| && i < |phis|
    ensures LinearIn(scevs, DerivedOf(scevs, phis[p].dst, phis), phis[i].dst) <==> Derived(scevs, phis, p, i)
  {
    var ds := DerivedOf(scevs, phis[p].dst, phis);
    DerivedIs(scevs, phis[p].dst, phis);
    if Derived(scevs, phis, p, i) {
      assert phis[i] in ds;
      var j :| 0 <= j < |ds| && ds[j] == phis[i];
    }
    if LinearIn(scevs, ds, phis[i].dst) {
      var j :| 0 <= j < |ds| && Linear(scevs, ds[j]) && ds[j].dst == phis[i].dst;
      assert ds[j] in phis;
      var k :| 0 <= k < |phis| && phis[k] == ds[j];
      assert k == i;
    }
  }

  lemma DerivedOwn(scevs: Scevs, phis: seq<Phi>, p: nat, n: nat)
    requires DistinctPhis(phis) && p < |phis| && forall i :: 0 <= i < |phis| ==> phis[i].dst < n
    ensures OwnRegs(DerivedOf(scevs, phis[p].dst, phis), phis[p].dst, n)
  {
    var ds := DerivedOf(scevs, phis[p].dst, phis);
    DerivedIs(scevs, phis[p].dst, phis);
    forall i | 0 <= i < |ds|
      ensures ds[i].dst < n && ds[i].dst != phis[p].dst
    {
      assert ds[i] in phis;
    }
  }

  // ----- The PHIs that go -----

  ghost predicate HasPhi(phis: seq<Phi>, r: Reg) { exists i :: 0 <= i < |phis| && phis[i].dst == r }

  lemma {:induction false} WithoutKeeps(phis: seq<Phi>, dead: set<Reg>, phi: Phi)
    ensures phi in WithoutPhis(phis, dead) <==> phi in phis && phi.dst !in dead
  {
    if phis != [] {
      WithoutKeeps(phis[1..], dead, phi);
      assert phis == [phis[0]] + phis[1..];
    }
  }

  lemma WithoutIs(phis: seq<Phi>, dead: set<Reg>, r: Reg)
    ensures HasPhi(WithoutPhis(phis, dead), r) <==> HasPhi(phis, r) && r !in dead
  {
    var out := WithoutPhis(phis, dead);
    if HasPhi(out, r) {
      var i :| 0 <= i < |out| && out[i].dst == r;
      WithoutKeeps(phis, dead, out[i]);
      assert out[i] in phis;
    }
    if HasPhi(phis, r) && r !in dead {
      var i :| 0 <= i < |phis| && phis[i].dst == r;
      WithoutKeeps(phis, dead, phis[i]);
      assert phis[i] in out;
    }
  }

  lemma WithoutReads(phis: seq<Phi>, dead: set<Reg>, r: Reg)
    requires PhisRead(WithoutPhis(phis, dead), r)
    ensures PhisRead(phis, r)
  {
    var out := WithoutPhis(phis, dead);
    var i, k :| 0 <= i < |out| && 0 <= k < |out[i].incoming| && out[i].incoming[k].1 == Ref(r);
    WithoutKeeps(phis, dead, out[i]);
    var j :| 0 <= j < |phis| && phis[j] == out[i];
    assert phis[j].incoming[k].1 == Ref(r);
  }

  lemma SameDstsHas(p: seq<Phi>, q: seq<Phi>, r: Reg)
    requires SameDsts(p, q)
    ensures HasPhi(p, r) <==> HasPhi(q, r)
  {
  }

  lemma ErasedReads(f: Func, h: Label, dead: set<Reg>, ls: seq<Label>, r: Reg)
    requires h in f.blocks && Reads(ErasePhis(f, h, dead), ls, true, r)
    ensures Reads(f, ls, true, r)
  {
    var l :| l in f.blocks && l in ls && BlockReads(ErasePhis(f, h, dead).blocks[l], r);
    if l == h && PhisRead(WithoutPhis(f.blocks[h].phis, dead), r) {
      WithoutReads(f.blocks[h].phis, dead, r);
    }
    assert BlockReads(f.blocks[l], r);
  }

  // ----- One loop -----

  /** Without a counter among the header's PHIs nothing happens. */
  lemma NoCounterNothing(f: Func, loop: Loop, scevs: Scevs, n: nat)
    requires loop.header in f.blocks && forall i :: 0 <= i < |f.blocks[loop.header].phis| ==> !Counter(scevs, f.blocks[loop.header].phis[i])
    ensures ProcessLoop(f, loop, scevs, n) == (f, n)
  {
    PrimaryIs(scevs, f.blocks[loop.header].phis, |f.blocks[loop.header].phis|);
  }

  /** p is the first counter among the header's PHIs, whose registers are distinct and below n. */
  ghost predicate LoopGiven(f: Func, loop: Loop, scevs: Scevs, n: nat, p: nat) {
    && loop.header in f.blocks && loop.header in loop.blocks
    && var phis := f.blocks[loop.header].phis;
       && DistinctPhis(phis) && (forall i :: 0 <= i < |phis| ==> phis[i].dst < n)
       && p < |phis| && Counter(scevs, phis[p]) && forall q :: 0 <= q < p ==> !Counter(scevs, phis[q])
  }

  lemma LoopEnds(f: Func, loop: Loop, scevs: Scevs, n: nat, p: nat) returns (s: Progress, ds: seq<Phi>)
    requires LoopGiven(f, loop, scevs, n, p)
    ensures loop.header in s.f.blocks && ProcessLoop(f, loop, scevs, n).0 == ErasePhis(s.f, loop.header, s.dead)
    ensures ds == DerivedOf(scevs, f.blocks[loop.header].phis[p].dst, f.blocks[loop.header].phis)
    ensures LoopDone(f, s, loop, LinearRec(scevs, f.blocks[loop.header].phis[p]), scevs, ds, n)
  {
    var phis := f.blocks[loop.header].phis;
    PrimaryIs(scevs, phis, p);
    ds := DerivedOf(scevs, phis[p].dst, phis);
    DerivedOwn(scevs, phis, p, n);
    var prim := RecOf(scevs, phis[p]);
    AllDone(f, n, loop, prim, scevs, ds);
    s := RewriteAll(Progress(f, n, {}), loop, prim, scevs, ds);
  }

  /** Every other linear PHI of the header is no longer used in the loop, and the header computes its
      closed form. */
  lemma DerivedReplaced(f: Func, loop: Loop, scevs: Scevs, n: nat, p: nat, i: nat)
    requires LoopGiven(f, loop, scevs, n, p) && i < |f.blocks[loop.header].phis| && Derived(scevs, f.blocks[loop.header].phis, p, i)
    ensures var g, phis := ProcessLoop(f, loop, scevs, n).0, f.blocks[loop.header].phis;
      && !UsedInside(g, loop.blocks, phis[i].dst)
      && HasForm(g.blocks[loop.header].body, LinearRec(scevs, phis[p]), LinearRec(scevs, phis[i]), n)
  {
    var phis, r := f.blocks[loop.header].phis, f.blocks[loop.header].phis[i].dst;
    var s, ds := LoopEnds(f, loop, scevs, n, p);
    DerivedLinear(scevs, phis, p, i);
    var g := ErasePhis(s.f, loop.header, s.dead);
    UsedIsReads(g, loop.blocks, r);
    if Reads(g, loop.blocks, true, r) {
      ErasedReads(s.f, loop.header, s.dead, loop.blocks, r);
    }
    DerivedIs(scevs, phis[p].dst, phis);
    assert phis[i] in ds;
    var j :| 0 <= j < |ds| && ds[j] == phis[i];
    assert HasForm(s.f.blocks[loop.header].body, LinearRec(scevs, phis[p]), LinearRec(scevs, ds[j]), n);
  }

  lemma {:induction false} OutsideStays(s: Progress, loop: Loop, prim: Rec, scevs: Scevs, ds: seq<Phi>, l: Label)
    requires loop.header in s.f.blocks && loop.header in loop.blocks && l in s.f.blocks && l !in loop.blocks
    ensures RewriteAll(s, loop, prim, scevs, ds).f.blocks[l] == s.f.blocks[l]
    decreases |ds|
  {
    if ds != [] {
      OutsideStays(s, loop, prim, scevs, ds[..|ds| - 1], l);
    }
  }

  /** Blocks outside the loop are not touched. */
  lemma OutsideUntouched(f: Func, loop: Loop, scevs: Scevs, n: nat, l: Label)
    requires loop.header in f.blocks && loop.header in loop.blocks && l in f.blocks && l !in loop.blocks
    ensures ProcessLoop(f, loop, scevs, n).0.blocks[l] == f.blocks[l]
  {
    var phis := f.blocks[loop.header].phis;
    var p := PrimaryOf(scevs, phis);
    if p.Some? && IsConstRec(scevs, p.value) {
      OutsideStays(Progress(f, n, {}), loop, RecOf(scevs, p.value), scevs, DerivedOf(scevs, p.value.dst, phis), l);
    }
  }

  /** A header PHI goes exactly if it is linear, not the primary, used in the loop and nowhere else. */
  lemma PhiGoesIff(f: Func, loop: Loop, scevs: Scevs, n: nat, p: nat, i: nat)
    requires LoopGiven(f, loop, scevs, n, p) && i < |f.blocks[loop.header].phis|
    ensures var g, phis, r := ProcessLoop(f, loop, scevs, n).0, f.blocks[loop.header].phis, f.blocks[loop.header].phis[i].dst;
      !HasPhi(g.blocks[loop.header].phis, r) <==>
        Derived(scevs, phis, p, i) && UsedInside(f, loop.blocks, r) && !UsedOutside(f, loop.blocks, r)
  {
    var phis, r := f.blocks[loop.header].phis, f.blocks[loop.header].phis[i].dst;
    var s, ds := LoopEnds(f, loop, scevs, n, p);
    DerivedLinear(scevs, phis, p, i);
    UsedIsReads(f, loop.blocks, r);
    WithoutIs(s.f.blocks[loop.header].phis, s.dead, r);
    SameDstsHas(phis, s.f.blocks[loop.header].phis, r);
    assert HasPhi(phis, r);
  }
}
