/** DerivedInductionVar preserves the meaning of every run, PHI after PHI and loop after loop. */
module IvRuns {
  import opened IR
  import opened Semantics
  import opened Renaming
  import opened Paths
  import opened ModMath
  import opened IvMath
  import opened IvSpec
  import opened IvSound

  /** Only a PHI of block h writes d. */
  ghost predicate PhiOnlyIn(f: Func, d: Reg, h: Label) {
    forall l :: l in f.blocks ==>
      && (forall i :: 0 <= i < |f.blocks[l].body| ==> f.blocks[l].body[i].dst != d)
      && (l != h ==> forall i :: 0 <= i < |f.blocks[l].phis| ==> f.blocks[l].phis[i].dst != d)
  }

  lemma BelowApart(b: Block, n: nat, d: Reg)
    requires BlockBelow(b, n) && forall i :: 0 <= i < |b.body| ==> b.body[i].dst != d
    ensures BlockApart({n, n + 1, n + 2}, d, b)
  {
    var new' := {n, n + 1, n + 2};
    forall i | 0 <= i < |b.body|
      ensures Avoids(new', b.body[i].args)
    {
      assert OperandsBelow(b.body[i].args, n);
    }
    forall i, k | 0 <= i < |b.phis| && 0 <= k < |b.phis[i].incoming| && b.phis[i].incoming[k].1.Ref?
      ensures b.phis[i].incoming[k].1.r !in new'
    {
      assert IncomingBelow(b.phis[i].incoming, n);
    }
  }

  // ----- The rewritten blocks -----

  /** The new instructions do not read the replaced PHI. */
  lemma NewStays(prim: Rec, a: Rec, n: nat, d: Reg, p: Reg)
    requires d != prim.phi && d < n
    ensures ReplaceBody(map[d := p], NewInstrs(prim, a, n)) == NewInstrs(prim, a, n)
  {
    var new' := NewInstrs(prim, a, n);
    forall i | 0 <= i < |new'|
      ensures ReplaceInstr(map[d := p], new'[i]) == new'[i]
    {
      assert SubOps(map[d := p], new'[i].args) == new'[i].args;
    }
  }

  lemma ReplaceAppend(m: map<Reg, Reg>, s: seq<Instr>, t: seq<Instr>)
    ensures ReplaceBody(m, s + t) == ReplaceBody(m, s) + ReplaceBody(m, t)
  {
  }

  lemma ReplaceVariant(m: map<Reg, Reg>, b: Block)
    ensures BlockVariant(m, b, ReplaceBlock(m, b)) && BlockVariant(m, b, b)
  {
  }

  function RewriteBlock(f: Func, loop: Loop, prim: Rec, a: Rec, n: nat, l: Label): Block
    requires l in f.blocks
  {
    var b := if l in loop.blocks then ReplaceBlock(map[a.phi := n + 2], f.blocks[l]) else f.blocks[l];
    if l == loop.header then b.(body := NewInstrs(prim, a, n) + b.body) else b
  }

  lemma RewriteHas(f: Func, loop: Loop, prim: Rec, a: Rec, n: nat, l: Label)
    requires loop.header in f.blocks && loop.header in loop.blocks && a.phi != prim.phi && a.phi < n
    ensures l in Rewrite(f, loop, prim, a, n).blocks <==> l in f.blocks
    ensures l in f.blocks ==> Rewrite(f, loop, prim, a, n).blocks[l] == RewriteBlock(f, loop, prim, a, n, l)
  {
    if l == loop.header {
      NewStays(prim, a, n, a.phi, n + 2);
      ReplaceAppend(map[a.phi := n + 2], NewInstrs(prim, a, n), f.blocks[l].body);
    }
  }

  // ----- Rewriting one PHI -----

  /** prim starts at 0 with step 1, both recurrences are true of f, and the closed form is right. */
  ghost predicate IvSetup(w: World, f: Func, loop: Loop, prim: Rec, a: Rec, n: nat) {
    && Computes(w) && RegsBelow(f, n) && f.order != []
    && loop.header in f.blocks && loop.header in loop.blocks
    && a.phi < n && prim.phi < n && a.phi != prim.phi && PhiOnlyIn(f, a.phi, loop.header)
    && 0 < prim.width && prim.start == 0 && prim.step == 1
    && Recurs(w, f, loop, prim) && Recurs(w, f, loop, a) && Exact(w, f, loop, prim.width, a)
  }

  lemma StepMirrors(w: World, f: Func, loop: Loop, prim: Rec, a: Rec, n: nat, i: nat, c': Config)
    requires IvSetup(w, f, loop, prim, a, n) && Run(w, f, i).At? && Run(w, f, i).cur in f.blocks
    requires MirrorNext({n, n + 1, n + 2}, a.phi, n + 2, Run(w, f, i), c')
    ensures c'.cur in Rewrite(f, loop, prim, a, n).blocks
    ensures MirrorNext({n, n + 1, n + 2}, a.phi, n + 2, Step(w, f, Run(w, f, i)), Step(w, Rewrite(f, loop, prim, a, n), c'))
    ensures AgreeOff({n, n + 1, n + 2}, PhiEnv(w, f, Run(w, f, i)), PhiEnv(w, Rewrite(f, loop, prim, a, n), c'))
  {
    var c := Run(w, f, i);
    var l, m, b := c.cur, map[a.phi := n + 2], f.blocks[c.cur];
    RewriteHas(f, loop, prim, a, n, l);
    BelowApart(b, n, a.phi);
    ReplaceVariant(m, b);
    var b' := if l in loop.blocks then ReplaceBlock(m, b) else b;
    if l == loop.header {
      assert AtHeader(w, f, l, i);
      HeaderStep(w, a.phi, n, prim, a, b, b', c.prev, l, c.env, c'.env, c.mem, Iteration(w, f, loop, i));
    } else {
      OtherStep(w, {n, n + 1, n + 2}, a.phi, n + 2, b, b', c.prev, l, c.env, c'.env, c.mem);
    }
  }

  lemma NextMirrors(w: World, f: Func, loop: Loop, prim: Rec, a: Rec, n: nat, i: nat, c: Config, c': Config)
    requires IvSetup(w, f, loop, prim, a, n) && c == Run(w, f, i) && MirrorNext({n, n + 1, n + 2}, a.phi, n + 2, c, c')
    ensures MirrorNext({n, n + 1, n + 2}, a.phi, n + 2, Step(w, f, c), Step(w, Rewrite(f, loop, prim, a, n), c'))
  {
    if c.At? {
      if c.cur in f.blocks {
        StepMirrors(w, f, loop, prim, a, n, i, c');
      } else {
        RewriteHas(f, loop, prim, a, n, c.cur);
      }
    }
  }

  lemma {:induction false} RunMirrors(w: World, f: Func, loop: Loop, prim: Rec, a: Rec, n: nat, i: nat)
    requires IvSetup(w, f, loop, prim, a, n)
    ensures MirrorNext({n, n + 1, n + 2}, a.phi, n + 2, Run(w, f, i), Run(w, Rewrite(f, loop, prim, a, n), i))
  {
    if i > 0 {
      RunMirrors(w, f, loop, prim, a, n, i - 1);
      NextMirrors(w, f, loop, prim, a, n, i - 1, Run(w, f, i - 1), Run(w, Rewrite(f, loop, prim, a, n), i - 1));
      RunNext(w, f, i - 1, i);
      RunNext(w, Rewrite(f, loop, prim, a, n), i - 1, i);
    }
  }

  /** The rewritten function runs in step with the original. */
  lemma RewriteInStep(w: World, f: Func, loop: Loop, prim: Rec, a: Rec, n: nat)
    requires IvSetup(w, f, loop, prim, a, n)
    ensures InStep(w, f, Rewrite(f, loop, prim, a, n), {n, n + 1, n + 2})
  {
    var g, hidden := Rewrite(f, loop, prim, a, n), {n, n + 1, n + 2};
    forall i: nat
      ensures InStepAt(w, f, g, hidden, i)
    {
      RunMirrors(w, f, loop, prim, a, n, i);
      if Run(w, f, i).At? && Run(w, f, i).cur in f.blocks {
        StepMirrors(w, f, loop, prim, a, n, i, Run(w, g, i));
      }
    }
    forall l
      ensures l in g.blocks <==> l in f.blocks
    {
      RewriteHas(f, loop, prim, a, n, l);
    }
    assert g.blocks.Keys == f.blocks.Keys;
  }

  // ----- What a rewriting keeps -----

  lemma SubBelow(xs: seq<Operand>, n: nat, d: Reg, p: Reg)
    requires OperandsBelow(xs, n)
    ensures p < n ==> OperandsBelow(SubOps(map[d := p], xs), n)
  {
  }

  lemma ReplaceBelow(b: Block, n: nat, d: Reg, p: Reg)
    requires BlockBelow(b, n) && p < n
    ensures BlockBelow(ReplaceBlock(map[d := p], b), n)
  {
    var m, c := map[d := p], ReplaceBlock(map[d := p], b);
    forall i | 0 <= i < |c.body|
      ensures c.body[i].dst < n && OperandsBelow(c.body[i].args, n)
    {
      SubBelow(b.body[i].args, n, d, p);
    }
    SubBelow(b.term.uses, n, d, p);
    forall i | 0 <= i < |c.phis|
      ensures c.phis[i].dst < n && IncomingBelow(c.phis[i].incoming, n)
    {
      assert IncomingBelow(b.phis[i].incoming, n);
    }
  }

  lemma NewBelow(prim: Rec, a: Rec, n: nat)
    requires prim.phi < n
    ensures BodyBelow(NewInstrs(prim, a, n), n + 3)
    ensures forall x :: x in NewInstrs(prim, a, n) ==> x.dst >= n && !x.op.dbg
  {
  }

  lemma BodyBelowAppend(s: seq<Instr>, t: seq<Instr>, n: nat)
    requires BodyBelow(s, n) && BodyBelow(t, n)
    ensures BodyBelow(s + t, n)
  {
  }

  lemma RewriteBlockBelow(f: Func, loop: Loop, prim: Rec, a: Rec, n: nat, l: Label, k: nat)
    requires l in f.blocks && BlockBelow(f.blocks[l], n) && prim.phi < n && k == n + 3
    ensures BlockBelow(RewriteBlock(f, loop, prim, a, n, l), k)
  {
    BelowMore(f.blocks[l], n, k);
    ReplaceBelow(f.blocks[l], k, a.phi, n + 2);
    NewBelow(prim, a, n);
    var b := if l in loop.blocks then ReplaceBlock(map[a.phi := n + 2], f.blocks[l]) else f.blocks[l];
    BodyBelowAppend(NewInstrs(prim, a, n), b.body, k);
  }

  lemma RewriteBelow(f: Func, loop: Loop, prim: Rec, a: Rec, n: nat)
    requires RegsBelow(f, n) && loop.header in f.blocks && loop.header in loop.blocks && a.phi != prim.phi && a.phi < n && prim.phi < n
    ensures RegsBelow(Rewrite(f, loop, prim, a, n), n + 3)
  {
    var g := Rewrite(f, loop, prim, a, n);
    forall l | l in g.blocks
      ensures BlockBelow(g.blocks[l], n + 3)
    {
      RewriteHas(f, loop, prim, a, n, l);
      RewriteBlockBelow(f, loop, prim, a, n, l, n + 3);
    }
  }

  lemma RewritePhiOnly(f: Func, loop: Loop, prim: Rec, a: Rec, n: nat, d: Reg, h: Label)
    requires loop.header in f.blocks && loop.header in loop.blocks && a.phi != prim.phi && a.phi < n && prim.phi < n
    requires PhiOnlyIn(f, d, h) && d < n
    ensures PhiOnlyIn(Rewrite(f, loop, prim, a, n), d, h)
  {
    var g := Rewrite(f, loop, prim, a, n);
    forall l | l in g.blocks
      ensures forall i :: 0 <= i < |g.blocks[l].body| ==> g.blocks[l].body[i].dst != d
      ensures l != h ==> forall i :: 0 <= i < |g.blocks[l].phis| ==> g.blocks[l].phis[i].dst != d
    {
      RewriteHas(f, loop, prim, a, n, l);
      NewBelow(prim, a, n);
    }
  }

  // ----- Registers without uses -----

  ghost predicate Unread(b: Block, r: Reg) {
    && (forall i :: 0 <= i < |b.body| && !b.body[i].op.dbg ==> Ref(r) !in b.body[i].args)
    && Ref(r) !in b.term.uses
    && (forall i, k :: 0 <= i < |b.phis| && 0 <= k < |b.phis[i].incoming| ==> b.phis[i].incoming[k].1 != Ref(r))
  }

  lemma UseAt(f: Func, l: Label, i: nat, k: nat, r: Reg)
    requires UsedAt(f, Site(l, i, k), r)
    ensures !UseEmpty(f, r)
  {
    assert Site(l, i, k) in UseSites(f, r);
  }

  lemma EmptyIsUnread(f: Func, r: Reg, l: Label)
    requires UseEmpty(f, r) && l in f.blocks
    ensures Unread(f.blocks[l], r)
  {
    var b := f.blocks[l];
    forall i | 0 <= i < |b.body| && !b.body[i].op.dbg
      ensures Ref(r) !in b.body[i].args
    {
      if Ref(r) in b.body[i].args {
        var k :| 0 <= k < |b.body[i].args| && b.body[i].args[k] == Ref(r);
        UseAt(f, l, |b.phis| + i, k, r);
      }
    }
    if Ref(r) in b.term.uses {
      var k :| 0 <= k < |b.term.uses| && b.term.uses[k] == Ref(r);
      UseAt(f, l, Count(b), k, r);
    }
    forall i, k | 0 <= i < |b.phis| && 0 <= k < |b.phis[i].incoming|
      ensures b.phis[i].incoming[k].1 != Ref(r)
    {
      if b.phis[i].incoming[k].1 == Ref(r) {
        UseAt(f, l, i, k, r);
      }
    }
  }

  lemma UnreadIsEmpty(f: Func, r: Reg)
    requires forall l :: l in f.blocks ==> Unread(f.blocks[l], r)
    ensures UseEmpty(f, r)
  {
    forall s
      ensures !UsedAt(f, s, r)
    {
      if s.l in f.blocks && s.i <= Count(f.blocks[s.l]) && s.k < |OperandsAt(f.blocks[s.l], s.i)| {
        assert OperandsAt(f.blocks[s.l], s.i)[s.k] in OperandsAt(f.blocks[s.l], s.i);
      }
    }
  }

  lemma SubUnread(xs: seq<Operand>, d: Reg, p: Reg, r: Reg)
    requires Ref(r) !in xs && p != r
    ensures Ref(r) !in SubOps(map[d := p], xs)
  {
    var ys := SubOps(map[d := p], xs);
    forall k | 0 <= k < |ys|
      ensures ys[k] != Ref(r)
    {
      assert xs[k] in xs;
    }
  }

  lemma ReplaceUnread(b: Block, d: Reg, p: Reg, r: Reg)
    requires Unread(b, r) && p != r
    ensures Unread(ReplaceBlock(map[d := p], b), r)
  {
    var c := ReplaceBlock(map[d := p], b);
    forall i | 0 <= i < |c.body| && !c.body[i].op.dbg
      ensures Ref(r) !in c.body[i].args
    {
      SubUnread(b.body[i].args, d, p, r);
    }
    SubUnread(b.term.uses, d, p, r);
    forall i, k | 0 <= i < |c.phis| && 0 <= k < |c.phis[i].incoming|
      ensures c.phis[i].incoming[k].1 != Ref(r)
    {
      assert b.phis[i].incoming[k].1 != Ref(r);
    }
  }

  lemma NewUnread(prim: Rec, a: Rec, n: nat, r: Reg)
    requires r < n && r != prim.phi
    ensures forall x :: x in NewInstrs(prim, a, n) ==> Ref(r) !in x.args
  {
  }

  lemma RewriteUseEmpty(f: Func, loop: Loop, prim: Rec, a: Rec, n: nat, r: Reg)
    requires loop.header in f.blocks && loop.header in loop.blocks && a.phi != prim.phi && a.phi < n
    requires UseEmpty(f, r) && r < n && r != prim.phi
    ensures UseEmpty(Rewrite(f, loop, prim, a, n), r)
  {
    var g := Rewrite(f, loop, prim, a, n);
    forall l | l in g.blocks
      ensures Unread(g.blocks[l], r)
    {
      RewriteHas(f, loop, prim, a, n, l);
      EmptyIsUnread(f, r, l);
      ReplaceUnread(f.blocks[l], a.phi, n + 2, r);
      NewUnread(prim, a, n, r);
    }
    UnreadIsEmpty(g, r);
  }

  // ----- Erasing PHIs without uses -----

  ghost predicate AllUnread(b: Block, d: set<Reg>) { forall r :: r in d ==> Unread(b, r) }

  lemma UnreadVals(w: World, d: set<Reg>, xs: seq<Operand>, e: Env, e': Env)
    requires AgreeOff(d, e, e') && forall r :: r in d ==> Ref(r) !in xs
    ensures Vals(w, xs, e) == Vals(w, xs, e')
  {
    forall k | 0 <= k < |xs| && xs[k].Ref?
      ensures xs[k].r !in d
    {
      assert xs[k] in xs;
    }
    ValsAgree(w, d, xs, e, e');
  }

  lemma {:induction false} BodyAgrees(w: World, d: set<Reg>, body: seq<Instr>, e: Env, e': Env, mem: Mem)
    requires AgreeOff(d, e, e')
    requires forall r, i :: r in d && 0 <= i < |body| && !body[i].op.dbg ==> Ref(r) !in body[i].args
    ensures var a, b := ExecBody(w, body, e, mem), ExecBody(w, body, e', mem);
      if a.Ran? then b.Ran? && b.mem == a.mem && AgreeOff(d, a.env, b.env) else b == a
    decreases body
  {
    if body != [] {
      if !body[0].op.dbg {
        UnreadVals(w, d, body[0].args, e, e');
      }
      var a, b := ExecInstr(w, body[0], e, mem), ExecInstr(w, body[0], e', mem);
      if a.Ran? {
        BodyAgrees(w, d, body[1..], a.env, b.env, a.mem);
      }
    }
  }

  lemma {:induction false} IncomingIn(inc: seq<(Label, Operand)>, p: Label, r: Reg)
    requires forall k :: 0 <= k < |inc| ==> inc[k].1 != Ref(r)
    ensures Incoming(inc, p) != Ref(r)
  {
    if inc != [] {
      IncomingIn(inc[1..], p, r);
    }
  }

  lemma {:induction false} ErasedPhis(w: World, d: set<Reg>, phis: seq<Phi>, p: Label, e: Env, e': Env, acc: Env, acc': Env)
    requires AgreeOff(d, e, e') && AgreeOff(d, acc, acc')
    requires forall r, i, k :: r in d && 0 <= i < |phis| && 0 <= k < |phis[i].incoming| ==> phis[i].incoming[k].1 != Ref(r)
    ensures AgreeOff(d, EvalPhis(w, phis, p, e, acc), EvalPhis(w, WithoutPhis(phis, d), p, e', acc'))
    decreases phis
  {
    if phis != [] {
      var x := Incoming(phis[0].incoming, p);
      forall r | r in d
        ensures x != Ref(r)
      {
        IncomingIn(phis[0].incoming, p, r);
      }
      var v := Val(w, x, e);
      var rest := WithoutPhis(phis[1..], d);
      if phis[0].dst in d {
        assert WithoutPhis(phis, d) == rest;
        ErasedPhis(w, d, phis[1..], p, e, e', acc[phis[0].dst := v], acc');
      } else {
        assert WithoutPhis(phis, d)[0] == phis[0] && WithoutPhis(phis, d)[1..] == rest;
        ErasedPhis(w, d, phis[1..], p, e, e', acc[phis[0].dst := v], acc'[phis[0].dst := v]);
      }
    }
  }

  ghost predicate ErasedBlock(d: set<Reg>, b: Block, b': Block) {
    b' == b || b' == b.(phis := WithoutPhis(b.phis, d))
  }

  lemma PhisAgree(w: World, d: set<Reg>, b: Block, b': Block, prev: Label, e: Env, e': Env)
    requires ErasedBlock(d, b, b') && AllUnread(b, d) && AgreeOff(d, e, e')
    ensures AgreeOff(d, EvalPhis(w, b.phis, prev, e, e), EvalPhis(w, b'.phis, prev, e', e'))
  {
    if b' == b {
      forall i | 0 <= i < |b.phis|
        ensures Val(w, Incoming(b.phis[i].incoming, prev), e) == Val(w, Incoming(b.phis[i].incoming, prev), e')
      {
        forall r | r in d
          ensures Incoming(b.phis[i].incoming, prev) != Ref(r)
        {
          IncomingIn(b.phis[i].incoming, prev, r);
        }
      }
      SamePhisRun(w, d, b.phis, prev, prev, e, e', e, e');
    } else {
      ErasedPhis(w, d, b.phis, prev, e, e', e, e');
    }
  }

  lemma ErasedStep(w: World, d: set<Reg>, b: Block, b': Block, prev: Label, cur: Label, e: Env, e': Env, mem: Mem)
    requires ErasedBlock(d, b, b') && AllUnread(b, d) && AgreeOff(d, e, e')
    ensures Follows(d, StepBlock(w, b, prev, cur, e, mem), StepBlock(w, b', prev, cur, e', mem))
  {
    PhisAgree(w, d, b, b', prev, e, e');
    var e1, e1' := EvalPhis(w, b.phis, prev, e, e), EvalPhis(w, b'.phis, prev, e', e');
    BodyAgrees(w, d, b.body, e1, e1', mem);
    var r, r' := ExecBody(w, b.body, e1, mem), ExecBody(w, b.body, e1', mem);
    if r.Ran? {
      UnreadVals(w, d, b.term.uses, r.env, r'.env);
    }
  }

  lemma AllEmptyUnread(f: Func, d: set<Reg>, l: Label)
    requires l in f.blocks && forall r :: r in d ==> UseEmpty(f, r)
    ensures AllUnread(f.blocks[l], d)
  {
    forall r | r in d
      ensures Unread(f.blocks[l], r)
    {
      EmptyIsUnread(f, r, l);
    }
  }

  lemma {:induction false} ErasedRun(w: World, f: Func, h: Label, d: set<Reg>, n: nat)
    requires f.order != [] && h in f.blocks && forall r :: r in d ==> UseEmpty(f, r)
    ensures Follows(d, Run(w, f, n), Run(w, ErasePhis(f, h, d), n))
  {
    if n > 0 {
      ErasedRun(w, f, h, d, n - 1);
      var g := ErasePhis(f, h, d);
      var c, c' := Run(w, f, n - 1), Run(w, g, n - 1);
      if c.At? && c.cur in f.blocks {
        AllEmptyUnread(f, d, c.cur);
        ErasedStep(w, d, f.blocks[c.cur], g.blocks[c.cur], c.prev, c.cur, c.env, c'.env, c.mem);
      }
    }
  }

  /** Erasing PHIs without uses changes nothing but their registers. */
  lemma EraseInStep(w: World, f: Func, h: Label, d: set<Reg>)
    requires f.order != [] && h in f.blocks && forall r :: r in d ==> UseEmpty(f, r)
    ensures InStep(w, f, ErasePhis(f, h, d), d)
  {
    var g := ErasePhis(f, h, d);
    assert g.blocks.Keys == f.blocks.Keys;
    forall n: nat
      ensures InStepAt(w, f, g, d, n)
    {
      ErasedRun(w, f, h, d, n);
      var c, c' := Run(w, f, n), Run(w, g, n);
      if c.At? && c.cur in f.blocks {
        AllEmptyUnread(f, d, c.cur);
        PhisAgree(w, d, f.blocks[c.cur], g.blocks[c.cur], c.prev, c.env, c'.env);
      }
    }
  }
}
