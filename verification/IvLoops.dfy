/** A whole loop, and all innermost loops of a function. */
module IvLoops {
  import opened IR
  import opened Semantics
  import opened Renaming
  import opened Paths
  import opened ModMath
  import opened IvMath
  import opened IvSpec
  import opened IvSound
  import opened IvRuns

  // ----- Composing -----

  lemma InStepSelf(w: World, f: Func)
    requires f.order != []
    ensures InStep(w, f, f, {})
  {
  }

  lemma FollowsTrans(a: set<Reg>, b: set<Reg>, c1: Config, c2: Config, c3: Config)
    requires Follows(a, c1, c2) && Follows(b, c2, c3)
    ensures Follows(a + b, c1, c3)
  {
  }

  lemma InStepTrans(w: World, f: Func, g: Func, h: Func, a: set<Reg>, b: set<Reg>, d: set<Reg>)
    requires InStep(w, f, g, a) && InStep(w, g, h, b) && a + b <= d
    ensures InStep(w, f, h, d)
  {
    forall n: nat
      ensures InStepAt(w, f, h, d, n)
    {
      assert InStepAt(w, f, g, a, n) && InStepAt(w, g, h, b, n);
      FollowsTrans(a, b, Run(w, f, n), Run(w, g, n), Run(w, h, n));
    }
  }

  // ----- One loop -----

  ghost predicate HeaderIn(f: Func, loop: Loop) {
    f.order != [] && loop.header in f.blocks && loop.header in loop.blocks
  }

  ghost predicate PrimOk(w: World, f: Func, loop: Loop, prim: Rec, n: nat)
    requires f.order != []
  {
    prim.phi < n && 0 < prim.width && prim.start == 0 && prim.step == 1 && Recurs(w, f, loop, prim)
  }

  /** What is assumed of a derived PHI: scalar evolution is right about it, and the closed form, too. */
  ghost predicate PhiOk(w: World, f: Func, loop: Loop, prim: Rec, scevs: Scevs, phi: Phi, n: nat)
    requires f.order != [] && 0 < prim.width
  {
    && phi.dst < n && phi.dst != prim.phi && PhiOnlyIn(f, phi.dst, loop.header)
    && (IsConstRec(scevs, phi) ==>
         Recurs(w, f, loop, RecOf(scevs, phi)) && Exact(w, f, loop, prim.width, RecOf(scevs, phi)))
  }

  ghost predicate KeepsPhiOnly(f: Func, n: nat, g: Func) {
    forall d: nat, h: nat {:trigger PhiOnlyIn(g, d, h)} :: d < n && PhiOnlyIn(f, d, h) ==> PhiOnlyIn(g, d, h)
  }

  /** What holds after some PHIs of the loop were rewritten. */
  ghost predicate Point(w: World, f: Func, n: nat, t: Progress) {
    && InStep(w, f, t.f, Range(n, t.n)) && RegsBelow(t.f, t.n) && n <= t.n && KeepsPhiOnly(f, n, t.f)
    && (forall r :: r in t.dead ==> r < n && UseEmpty(t.f, r))
  }

  lemma SetupAt(w: World, f: Func, n: nat, loop: Loop, prim: Rec, scevs: Scevs, phi: Phi, t: Progress)
    requires Computes(w) && HeaderIn(f, loop) && PrimOk(w, f, loop, prim, n) && PhiOk(w, f, loop, prim, scevs, phi, n)
    requires Point(w, f, n, t) && IsConstRec(scevs, phi)
    ensures IvSetup(w, t.f, loop, prim, RecOf(scevs, phi), t.n)
  {
    var a, hidden := RecOf(scevs, phi), Range(n, t.n);
    RecursKept(w, f, t.f, hidden, loop, prim);
    RecursKept(w, f, t.f, hidden, loop, a);
    ExactKept(w, f, t.f, hidden, loop, prim.width, a);
    assert PhiOnlyIn(t.f, phi.dst, loop.header);
  }

  lemma DeadKept(f: Func, loop: Loop, prim: Rec, a: Rec, n: nat, dead: set<Reg>)
    requires loop.header in f.blocks && loop.header in loop.blocks && a.phi != prim.phi && a.phi < n
    requires forall r :: r in dead ==> r < n && r != prim.phi && UseEmpty(f, r)
    ensures forall r :: r in dead ==> UseEmpty(Rewrite(f, loop, prim, a, n), r)
  {
    forall r | r in dead
      ensures UseEmpty(Rewrite(f, loop, prim, a, n), r)
    {
      RewriteUseEmpty(f, loop, prim, a, n, r);
    }
  }

  lemma PhiOnlyKept(f: Func, n0: nat, g: Func, loop: Loop, prim: Rec, a: Rec, n: nat)
    requires KeepsPhiOnly(f, n0, g) && n0 <= n
    requires loop.header in g.blocks && loop.header in loop.blocks && a.phi != prim.phi && a.phi < n && prim.phi < n
    ensures KeepsPhiOnly(f, n0, Rewrite(g, loop, prim, a, n))
  {
    forall d: nat, h: nat | d < n0 && PhiOnlyIn(f, d, h)
      ensures PhiOnlyIn(Rewrite(g, loop, prim, a, n), d, h)
    {
      assert PhiOnlyIn(g, d, h);
      RewritePhiOnly(g, loop, prim, a, n, d, h);
    }
  }

  lemma RewritePoint(w: World, f: Func, n: nat, loop: Loop, prim: Rec, a: Rec, t: Progress, u: Progress)
    requires HeaderIn(f, loop) && Point(w, f, n, t) && IvSetup(w, t.f, loop, prim, a, t.n)
    requires forall r :: r in t.dead ==> r != prim.phi
    requires u.f == Rewrite(t.f, loop, prim, a, t.n) && u.n == t.n + 3 && a.phi < n
    requires u.dead == t.dead || (u.dead == t.dead + {a.phi} && UseEmpty(u.f, a.phi))
    ensures Point(w, f, n, u)
  {
    RewriteInStep(w, t.f, loop, prim, a, t.n);
    InStepTrans(w, f, t.f, u.f, Range(n, t.n), {t.n, t.n + 1, t.n + 2}, Range(n, u.n));
    RewriteBelow(t.f, loop, prim, a, t.n);
    PhiOnlyKept(f, n, t.f, loop, prim, a, t.n);
    DeadKept(t.f, loop, prim, a, t.n, t.dead);
  }

  lemma OnePoint(w: World, f: Func, n: nat, loop: Loop, prim: Rec, scevs: Scevs, phi: Phi, t: Progress)
    requires Computes(w) && HeaderIn(f, loop) && PrimOk(w, f, loop, prim, n) && PhiOk(w, f, loop, prim, scevs, phi, n)
    requires Point(w, f, n, t) && forall r :: r in t.dead ==> r != prim.phi
    ensures loop.header in t.f.blocks
    ensures var u := RewriteOne(t, loop, prim, scevs, phi);
      Point(w, f, n, u) && (u.dead == t.dead || u.dead == t.dead + {phi.dst})
  {
    if IsConstRec(scevs, phi) {
      SetupAt(w, f, n, loop, prim, scevs, phi, t);
      RewritePoint(w, f, n, loop, prim, RecOf(scevs, phi), t, RewriteOne(t, loop, prim, scevs, phi));
    }
  }

  function PhiDsts(phis: seq<Phi>): set<Reg> { set i | 0 <= i < |phis| :: phis[i].dst }

  /** After all derived PHIs of the loop. */
  lemma {:induction false} AllPoint(w: World, f: Func, n: nat, loop: Loop, prim: Rec, scevs: Scevs, phis: seq<Phi>)
    requires Computes(w) && HeaderIn(f, loop) && PrimOk(w, f, loop, prim, n) && RegsBelow(f, n)
    requires forall phi :: phi in phis ==> PhiOk(w, f, loop, prim, scevs, phi, n)
    ensures var t := RewriteAll(Progress(f, n, {}), loop, prim, scevs, phis);
      Point(w, f, n, t) && t.dead <= PhiDsts(phis)
    decreases phis
  {
    if phis == [] {
      InStepSelf(w, f);
      assert Range(n, n) == {};
    } else {
      var k := |phis| - 1;
      AllPoint(w, f, n, loop, prim, scevs, phis[..k]);
      var t := RewriteAll(Progress(f, n, {}), loop, prim, scevs, phis[..k]);
      assert phis[k] in phis;
      forall r | r in t.dead
        ensures r != prim.phi
      {
        var i :| 0 <= i < k && phis[..k][i].dst == r;
        assert phis[i] in phis;
      }
      OnePoint(w, f, n, loop, prim, scevs, phis[k], t);
      assert PhiDsts(phis[..k]) + {phis[k].dst} <= PhiDsts(phis);
    }
  }

  /** What is assumed of a loop: its header is its own, every header PHI belongs to it, and scalar
      evolution is right about the header PHIs. */
  ghost predicate LoopFacts(w: World, f: Func, loop: Loop, scevs: Scevs) {
    && HeaderIn(f, loop)
    && var phis := f.blocks[loop.header].phis;
       && (forall i :: 0 <= i < |phis| ==> PhiOnlyIn(f, phis[i].dst, loop.header))
       && (forall i, j :: 0 <= i < j < |phis| ==> phis[i].dst != phis[j].dst)
       && (forall i :: 0 <= i < |phis| && IsConstRec(scevs, phis[i]) ==>
            0 < phis[i].ty.width && Recurs(w, f, loop, RecOf(scevs, phis[i])))
  }

  /** The closed forms computed from the primary, if there is one, are right. */
  ghost predicate ClosedFormsExact(w: World, f: Func, loop: Loop, scevs: Scevs)
    requires f.order != [] && loop.header in f.blocks
  {
    var phis := f.blocks[loop.header].phis;
    var p := PrimaryOf(scevs, phis);
    p.Some? && p.value.ty.IntTy? && 0 < p.value.ty.width ==>
      forall i :: 0 <= i < |phis| && IsConstRec(scevs, phis[i]) ==>
        Exact(w, f, loop, p.value.ty.width, RecOf(scevs, phis[i]))
  }

  ghost predicate LoopSetup(w: World, f: Func, loop: Loop, scevs: Scevs) {
    LoopFacts(w, f, loop, scevs) && ClosedFormsExact(w, f, loop, scevs)
  }

  lemma {:induction false} PrimaryIs(scevs: Scevs, phis: seq<Phi>) returns (i: nat)
    requires PrimaryOf(scevs, phis).Some?
    ensures i < |phis| && PrimaryOf(scevs, phis).value == phis[i] && IsPrimary(scevs, phis[i])
  {
    if IsPrimary(scevs, phis[0]) {
      i := 0;
    } else {
      i := PrimaryIs(scevs, phis[1..]);
      i := i + 1;
    }
  }

  lemma {:induction false} DerivedIs(scevs: Scevs, primary: Reg, phis: seq<Phi>, x: Phi)
    requires x in DerivedOf(scevs, primary, phis)
    ensures x in phis && x.dst != primary
    decreases phis
  {
    var n := |phis| - 1;
    if x in DerivedOf(scevs, primary, phis[..n]) {
      DerivedIs(scevs, primary, phis[..n], x);
    }
  }

  lemma LoopParts(w: World, f: Func, loop: Loop, scevs: Scevs, n: nat, p: Phi)
    requires LoopSetup(w, f, loop, scevs) && RegsBelow(f, n)
    requires PrimaryOf(scevs, f.blocks[loop.header].phis) == Some(p)
    ensures IsPrimary(scevs, p) && PrimOk(w, f, loop, RecOf(scevs, p), n)
    ensures forall phi :: phi in DerivedOf(scevs, p.dst, f.blocks[loop.header].phis) ==>
      phi in f.blocks[loop.header].phis && PhiOk(w, f, loop, RecOf(scevs, p), scevs, phi, n)
  {
    var phis := f.blocks[loop.header].phis;
    var i := PrimaryIs(scevs, phis);
    assert BlockBelow(f.blocks[loop.header], n);
    forall phi | phi in DerivedOf(scevs, p.dst, phis)
      ensures phi in phis && PhiOk(w, f, loop, RecOf(scevs, p), scevs, phi, n)
    {
      DerivedIs(scevs, p.dst, phis, phi);
      var j :| 0 <= j < |phis| && phis[j] == phi;
    }
  }

  // ----- From loop to loop -----

  /** The same registers of the same types. */
  ghost predicate SameHeads(phis: seq<Phi>, phis': seq<Phi>) {
    |phis'| == |phis| && forall i :: 0 <= i < |phis| ==> phis'[i].dst == phis[i].dst && phis'[i].ty == phis[i].ty
  }

  lemma {:induction false} SamePrimary(scevs: Scevs, phis: seq<Phi>, phis': seq<Phi>)
    requires SameHeads(phis, phis')
    ensures var p, p' := PrimaryOf(scevs, phis), PrimaryOf(scevs, phis');
      p'.Some? == p.Some? && (p.Some? ==> p'.value.dst == p.value.dst && p'.value.ty == p.value.ty)
    decreases phis
  {
    if phis != [] {
      SamePrimary(scevs, phis[1..], phis'[1..]);
    }
  }

  lemma {:induction false} AllHeads(f: Func, loop: Loop, prim: Rec, scevs: Scevs, n: nat, phis: seq<Phi>, l: Label)
    requires loop.header in f.blocks && loop.header in loop.blocks && l in f.blocks
    requires forall phi :: phi in phis ==> phi.dst != prim.phi && phi.dst < n
    ensures var t := RewriteAll(Progress(f, n, {}), loop, prim, scevs, phis);
      SameHeads(f.blocks[l].phis, t.f.blocks[l].phis) && n <= t.n && t.f.order == f.order
    decreases phis
  {
    if phis != [] {
      var k := |phis| - 1;
      AllHeads(f, loop, prim, scevs, n, phis[..k], l);
      var t := RewriteAll(Progress(f, n, {}), loop, prim, scevs, phis[..k]);
      assert phis[k] in phis;
      if IsConstRec(scevs, phis[k]) {
        RewriteHas(t.f, loop, prim, RecOf(scevs, phis[k]), t.n, l);
      }
    }
  }

  lemma {:induction false} WithoutIs(phis: seq<Phi>, dead: set<Reg>, x: Phi)
    requires x in WithoutPhis(phis, dead)
    ensures x in phis
    decreases phis
  {
    if x != phis[0] {
      WithoutIs(phis[1..], dead, x);
    }
  }

  /** What holds after one loop was processed. */
  ghost predicate AfterLoop(w: World, f: Func, n: nat, h: Label, dead: set<Reg>, g: Func, k: nat) {
    && h in f.blocks && InStep(w, f, g, Range(n, k) + dead) && RegsBelow(g, k) && n <= k && KeepsPhiOnly(f, n, g)
    && dead <= PhiDsts(f.blocks[h].phis)
    && forall l :: l in f.blocks && l != h ==> SameHeads(f.blocks[l].phis, g.blocks[l].phis)
  }

  lemma EraseKeeps(f: Func, h: Label, dead: set<Reg>, n: nat)
    requires h in f.blocks && RegsBelow(f, n)
    ensures RegsBelow(ErasePhis(f, h, dead), n)
    ensures forall d: nat, m: nat :: PhiOnlyIn(f, d, m) ==> PhiOnlyIn(ErasePhis(f, h, dead), d, m)
  {
    var g, b := ErasePhis(f, h, dead), f.blocks[h];
    assert BlockBelow(b, n);
    forall i | 0 <= i < |g.blocks[h].phis|
      ensures g.blocks[h].phis[i] in b.phis
    {
      WithoutIs(b.phis, dead, g.blocks[h].phis[i]);
    }
    forall d: nat, m: nat | PhiOnlyIn(f, d, m)
      ensures PhiOnlyIn(g, d, m)
    {
      if m != h {
        assert forall x :: x in b.phis ==> x.dst != d;
      }
    }
  }

  lemma Erased(w: World, f: Func, n: nat, h: Label, t: Progress)
    requires h in f.blocks && Point(w, f, n, t) && t.dead <= PhiDsts(f.blocks[h].phis)
    requires forall l :: l in f.blocks ==> l in t.f.blocks && SameHeads(f.blocks[l].phis, t.f.blocks[l].phis)
    ensures AfterLoop(w, f, n, h, t.dead, ErasePhis(t.f, h, t.dead), t.n)
  {
    var g := ErasePhis(t.f, h, t.dead);
    EraseInStep(w, t.f, h, t.dead);
    InStepTrans(w, f, t.f, g, Range(n, t.n), t.dead, Range(n, t.n) + t.dead);
    EraseKeeps(t.f, h, t.dead, t.n);
    forall d: nat, m: nat | d < n && PhiOnlyIn(f, d, m)
      ensures PhiOnlyIn(g, d, m)
    {
      assert PhiOnlyIn(t.f, d, m);
    }
  }

  lemma NothingDone(w: World, f: Func, n: nat, h: Label)
    requires f.order != [] && h in f.blocks && RegsBelow(f, n)
    ensures AfterLoop(w, f, n, h, {}, f, n)
  {
    InStepSelf(w, f);
    assert Range(n, n) + {} == {};
  }

  /** One loop: the result runs in step with the original. */
  lemma LoopInStep(w: World, f: Func, loop: Loop, scevs: Scevs, n: nat) returns (dead: set<Reg>)
    requires Computes(w) && LoopSetup(w, f, loop, scevs) && RegsBelow(f, n)
    ensures var r := ProcessLoop(f, loop, scevs, n); AfterLoop(w, f, n, loop.header, dead, r.0, r.1)
  {
    var phis := f.blocks[loop.header].phis;
    var p := PrimaryOf(scevs, phis);
    if p.None? {
      dead := {};
      NothingDone(w, f, n, loop.header);
    } else {
      LoopParts(w, f, loop, scevs, n, p.value);
      var ds := DerivedOf(scevs, p.value.dst, phis);
      var prim := RecOf(scevs, p.value);
      AllPoint(w, f, n, loop, prim, scevs, ds);
      var t := RewriteAll(Progress(f, n, {}), loop, prim, scevs, ds);
      dead := t.dead;
      forall l | l in f.blocks
        ensures SameHeads(f.blocks[l].phis, t.f.blocks[l].phis)
      {
        AllHeads(f, loop, prim, scevs, n, ds, l);
      }
      DerivedDsts(scevs, p.value.dst, phis);
      Erased(w, f, n, loop.header, t);
    }
  }

  lemma DerivedDsts(scevs: Scevs, primary: Reg, phis: seq<Phi>)
    ensures PhiDsts(DerivedOf(scevs, primary, phis)) <= PhiDsts(phis)
  {
    var ds := DerivedOf(scevs, primary, phis);
    forall i | 0 <= i < |ds|
      ensures ds[i].dst in PhiDsts(phis)
    {
      DerivedIs(scevs, primary, phis, ds[i]);
    }
  }

  /** DerivedInductionVar on one loop preserves the meaning. */
  lemma LoopPreserves(w: World, f: Func, loop: Loop, scevs: Scevs, n: nat)
    requires Computes(w) && LoopSetup(w, f, loop, scevs) && RegsBelow(f, n)
    ensures f.order != [] && ProcessLoop(f, loop, scevs, n).0.order != [] && Lockstep(w, f, ProcessLoop(f, loop, scevs, n).0)
  {
    var dead := LoopInStep(w, f, loop, scevs, n);
    var r := ProcessLoop(f, loop, scevs, n);
    InStepLocks(w, f, r.0, Range(n, r.1) + dead);
  }

  // ----- All loops -----

  lemma NotDead(f: Func, h: Label, m: Label, i: nat, dead: set<Reg>)
    requires h in f.blocks && m in f.blocks && h != m && i < |f.blocks[m].phis|
    requires PhiOnlyIn(f, f.blocks[m].phis[i].dst, m) && dead <= PhiDsts(f.blocks[h].phis)
    ensures f.blocks[m].phis[i].dst !in dead
  {
  }

  /** Processing one loop keeps what is assumed of another. */
  lemma OtherLoopKept(w: World, f: Func, n: nat, h: Label, dead: set<Reg>, g: Func, k: nat, loop: Loop, scevs: Scevs)
    requires AfterLoop(w, f, n, h, dead, g, k) && LoopSetup(w, f, loop, scevs) && loop.header != h && RegsBelow(f, n)
    ensures LoopSetup(w, g, loop, scevs)
  {
    var m := loop.header;
    var phis, phis', hidden := f.blocks[m].phis, g.blocks[m].phis, Range(n, k) + dead;
    assert SameHeads(phis, phis') && BlockBelow(f.blocks[m], n);
    SamePrimary(scevs, phis, phis');
    forall i | 0 <= i < |phis'|
      ensures PhiOnlyIn(g, phis'[i].dst, m)
    {
      assert PhiOnlyIn(f, phis[i].dst, m);
    }
    forall i | 0 <= i < |phis'| && IsConstRec(scevs, phis'[i])
      ensures 0 < phis'[i].ty.width && Recurs(w, g, loop, RecOf(scevs, phis'[i]))
    {
      NotDead(f, h, m, i, dead);
      RecursKept(w, f, g, hidden, loop, RecOf(scevs, phis[i]));
    }
    var p := PrimaryOf(scevs, phis);
    if p.Some? && p.value.ty.IntTy? && 0 < p.value.ty.width {
      forall i | 0 <= i < |phis'| && IsConstRec(scevs, phis'[i])
        ensures Exact(w, g, loop, p.value.ty.width, RecOf(scevs, phis'[i]))
      {
        ExactKept(w, f, g, hidden, loop, p.value.ty.width, RecOf(scevs, phis[i]));
      }
    }
  }

  /** DerivedInductionVar preserves the meaning of every run. */
  lemma {:induction false} AllPreserve(w: World, f: Func, loops: seq<Loop>, scevs: Scevs, n: nat)
    requires Computes(w) && RegsBelow(f, n) && f.order != []
    requires forall loop :: loop in loops ==> loop.header in f.blocks && LoopSetup(w, f, loop, scevs)
    requires forall i, j :: 0 <= i < j < |loops| ==> loops[i].header != loops[j].header
    ensures ProcessAll(f, loops, scevs, n).0.order != [] && Lockstep(w, f, ProcessAll(f, loops, scevs, n).0)
    decreases loops
  {
    if loops != [] {
      var loop := loops[0];
      var t := ProcessLoop(f, loop, scevs, n);
      var dead := LoopInStep(w, f, loop, scevs, n);
      forall x | x in loops[1..]
        ensures x.header in t.0.blocks && LoopSetup(w, t.0, x, scevs)
      {
        var j :| 0 <= j < |loops[1..]| && loops[1..][j] == x;
        assert loops[j + 1] == x;
        OtherLoopKept(w, f, n, loop.header, dead, t.0, t.1, x, scevs);
      }
      AllPreserve(w, t.0, loops[1..], scevs, t.1);
      InStepLocks(w, f, t.0, Range(n, t.1) + dead);
    }
  }

  // ----- When the closed form is right -----

  /** The loop runs exactly t iterations at most, and some visit runs them all. */
  ghost predicate RunsThrough(w: World, f: Func, loop: Loop, t: nat)
    requires f.order != []
  {
    Trips(w, f, loop, t) && forall k: nat :: k < t ==> Reached(w, f, loop, k)
  }

  ghost predicate Reached(w: World, f: Func, loop: Loop, k: nat)
    requires f.order != []
  {
    exists n: nat :: Reaches(w, f, loop, n, k)
  }

  ghost predicate Reaches(w: World, f: Func, loop: Loop, n: nat, k: nat)
    requires f.order != []
  {
    AtHeader(w, f, loop.header, n) && Iteration(w, f, loop, n) == k
  }

  /** A primary that is wide enough, a short enough loop or a step that hides the wraps. */
  lemma FitsSuffices(w: World, f: Func, loop: Loop, width: nat, a: Rec, t: nat)
    requires f.order != [] && 0 < width && 0 < a.width
    requires width >= a.width || (Trips(w, f, loop, t) && Fits(a.step, width, a.width, t))
    ensures Exact(w, f, loop, width, a)
  {
    forall n: nat | AtHeader(w, f, loop.header, n)
      ensures ClosedForm(a.start, a.step, width, a.width, Iteration(w, f, loop, n)) == Recurrence(a.start, a.step, a.width, Iteration(w, f, loop, n))
    {
      if width >= a.width {
        WideIsExact(a.start, a.step, width, a.width, Iteration(w, f, loop, n));
      } else {
        FitsIsExact(a.start, a.step, width, a.width, t, Iteration(w, f, loop, n));
      }
    }
  }

  /** In a loop of t iterations the closed form is right throughout exactly when it fits. */
  lemma ExactIffFits(w: World, f: Func, loop: Loop, width: nat, a: Rec, t: nat)
    requires f.order != [] && 0 < width && 0 < a.width && RunsThrough(w, f, loop, t)
    ensures Exact(w, f, loop, width, a) <==> Fits(a.step, width, a.width, t)
  {
    if Fits(a.step, width, a.width, t) {
      FitsSuffices(w, f, loop, width, a, t);
    }
    if Exact(w, f, loop, width, a) {
      forall k: nat | k < t
        ensures ClosedForm(a.start, a.step, width, a.width, k) == Recurrence(a.start, a.step, a.width, k)
      {
        assert Reached(w, f, loop, k);
        var n: nat :| Reaches(w, f, loop, n, k);
      }
      ExactIff(a.start, a.step, width, a.width, t);
    }
  }

  /** Every header recurrence is no wider than the primary, or fits it for the trip bound t. */
  ghost predicate LoopFits(w: World, f: Func, loop: Loop, scevs: Scevs, t: nat)
    requires f.order != [] && loop.header in f.blocks
  {
    var phis := f.blocks[loop.header].phis;
    var p := PrimaryOf(scevs, phis);
    p.Some? && p.value.ty.IntTy? && 0 < p.value.ty.width ==>
      forall i :: 0 <= i < |phis| && IsConstRec(scevs, phis[i]) ==>
        || phis[i].ty.width <= p.value.ty.width
        || (Trips(w, f, loop, t) && Fits(scevs[phis[i].dst].step.value, p.value.ty.width, phis[i].ty.width, t))
  }

  lemma FittingLoop(w: World, f: Func, loop: Loop, scevs: Scevs, t: nat)
    requires LoopFacts(w, f, loop, scevs) && LoopFits(w, f, loop, scevs, t)
    ensures LoopSetup(w, f, loop, scevs)
  {
    var phis := f.blocks[loop.header].phis;
    var p := PrimaryOf(scevs, phis);
    if p.Some? && p.value.ty.IntTy? && 0 < p.value.ty.width {
      forall i | 0 <= i < |phis| && IsConstRec(scevs, phis[i])
        ensures Exact(w, f, loop, p.value.ty.width, RecOf(scevs, phis[i]))
      {
        FitsSuffices(w, f, loop, p.value.ty.width, RecOf(scevs, phis[i]), t);
      }
    }
  }

  /** DerivedInductionVar preserves the meaning if in every innermost loop each derived variable is
      no wider than the primary, or fits it. */
  lemma FittingLoopsPreserve(w: World, f: Func, loops: seq<Loop>, scevs: Scevs, n: nat, trips: Loop -> nat)
    requires Computes(w) && RegsBelow(f, n) && f.order != []
    requires forall loop :: loop in loops ==> LoopFacts(w, f, loop, scevs) && LoopFits(w, f, loop, scevs, trips(loop))
    requires forall i, j :: 0 <= i < j < |loops| ==> loops[i].header != loops[j].header
    ensures (forall loop :: loop in loops ==> loop.header in f.blocks)
    ensures ProcessAll(f, loops, scevs, n).0.order != [] && Lockstep(w, f, ProcessAll(f, loops, scevs, n).0)
  {
    forall loop | loop in loops
      ensures LoopSetup(w, f, loop, scevs)
    {
      FittingLoop(w, f, loop, scevs, trips(loop));
    }
    AllPreserve(w, f, loops, scevs, n);
  }
}
